# The transcode scheduler and the timestamp machinery around it

This project models the part of ffmpeg's command line tool that runs a transcode: the scheduler that connects demuxers, decoders, filtergraphs, encoders and muxers, decides which sources may run, starts the muxers when they are ready, and takes everything down again; and four small state machines that repair timestamps on the way. Every section that the scheduler runs with a lock held is one atomic step. Where threads meet outside a lock, a module has a state, a set of steps that may be taken in any order, an invariant, and theorems about every run.

| file | what it models |
|---|---|
| `FiniteSets.dfy`, `Digraph.dfy` | counting; paths, cycles and ranks in finite graphs |
| `Topology.dfy` | the graph that `sch_connect()` builds, and what `start_prepare()` demands of it |
| `CycleCheck.dfy`, `Dag.dfy` | the explicit-stack cycle check, and what it decides about the whole graph |
| `Unchoke.dfy`, `Ways.dfy`, `Scheduler.dfy` | the least set of tasks that has to run, the same told by ways through the graph, and the scheduler object whose update computes it |
| `Timestamps.dfy`, `ThreadQueue.dfy` | rational timestamps; the bounded queue between two threads |
| `PreMux.dfy`, `MuxChannel.dfy`, `MuxStartup.dfy` | the merge of the pre-mux queues, the two ways to a muxer, and the start of muxers |
| `Handshake.dfy` | the flush and the end timestamps when an input loops |
| `OutputEdges.dfy`, `FilterInputs.dfy`, `Lifecycle.dfy` | the end of streams on the edges; start and stop |
| `FrameRate.dfy` | frame rate conversion |
| `AudioTimebase.dfy` | the audio decoder's time base |
| `MuxTimestamps.dfy` | the muxer's repair of timestamps |
| `Discontinuity.dfy` | the demuxer's correction of discontinuities |

Objects whose methods change their fields are classes here too (`SchedulerState`, `MuxStart`, `MuxStarter`, `Outputs`, `FpsConv`, `AudioClock`, `MuxStream`, `DemuxerTs`), with the loops of the original. Each method is proved against a description of its new state, and the lemmas beside it prove what that description promises. The cycle check works on its two arrays in place.

Preconditions: the graph was built by `sch_connect()` (from which it follows that both ends of every link agree), and each filtergraph's best input is at most its number of inputs. The start-up check moreover needs that no filtergraph is fed from a cycle of decoders and encoders, because `src_filtergraph()` does not return from one (`Topology.WalkEndsOrNot`); the scheduling update needs that there is no such cycle at all.

Where the code does not meet its own promise, the model follows the code and says exactly when the promise holds:

- The header (`ffmpeg/fftools/ffmpeg_sched.h:55-56`) promises that the absence of cycles is checked. A cycle of decoders and encoders alone passes the check (`Dag.CodecCycleGoesUnnoticed`). The graph is acyclic if and only if it passes and there is no such cycle (`Dag.CheckDecidesWholeGraph`).
- `trailing_dts()` takes INT64_MAX for "nothing found". A trailing stream is let through if and only if its timestamp is not INT64_MAX (`Scheduler.TrailingStreamEligible`, `Scheduler.TrailingStreamHeldBack`).
- A decoder cannot tell a flush from a packet with neither data nor side data. Its account of replies is kept by every step except such a packet for a decoder that replies (`Handshake.NextInv`); two of them leave the decoder with a reply that has no room (`Handshake.EmptyPacketsJam`).
- Frame accounting is broken by exactly the calls that `FrameRate.KeepsBalance` rejects (`FrameRate.StepBalance`), which `FrameRate.KeepsBalanceByInput` puts in terms of the frame: more output frames are missing at its start than at its end, which takes a negative duration, or a pending frame is dropped together with one that is too much to repeat. At the end of the stream it is broken exactly if a pending frame stays pending, which is then counted as dropped twice, or if there is too much to repeat (`FrameRate.EndBalance`).
- The audio decoder counts the end of a frame for `av_rescale_delta()` in samples where ticks of its time base are meant. It is the end of the frame if and only if a tick is a sample (`AudioTimebase.ConversionEnd`); the time of the frame is kept all the same (`AudioTimebase.TimedFrameKeepsTime`).
- A packet without dts makes the muxer forget the last dts (`MuxTimestamps.MissingDtsForgets`), and dts then go back for some inputs (`MuxTimestamps.DtsGoesBack`). Over a whole run they increase if and only if, after every such gap, the smaller timestamp of the first packet with dts is late enough (`MuxTimestamps.InOrderAcrossGaps`).

## Model

| member | source | states |
|---|---|---|
| `Scheduler.SchedulerState.ScheduleUpdateLocked` | ffmpeg/fftools/ffmpeg_sched.c:1392-1471 | After an update without termination request: every waiter's state is the one computed, and the tasks that run are exactly the least set that contains the root sources of the eligible streams and half-closed filter inputs and is closed under what running demuxers lead to, plus one task that has not exited if no stream is eligible. With a termination request nothing changes. |
| `Scheduler.SchedulerState.ScheduledByWay` | ffmpeg/fftools/ffmpeg_sched.c:1392-1471 | After an update a task runs if and only if a chain of ways leads to it: up from an eligible output stream or an input closed by its receiver only, through sources and best inputs, and from each demuxer reached down through first destinations to a filtergraph and up again from what that waits for; or it is the one task left when no stream is eligible. |
| `Scheduler.SchedulerState.ScheduledProgress` | ffmpeg/fftools/ffmpeg_sched.c:1392-1471 | After an update, wherever the way up from a trailing unfinished stream leads, that task runs; so it does for inputs closed by their receiver only; and if nothing runs every demuxer and filtergraph has exited. |
| `Unchoke.LeastSettledIsLeast` | ffmpeg/fftools/ffmpeg_sched.c:1285-1360 | The set that the mutually recursive walk aims at contains its seeds, is closed, and is contained in every closed set with the seeds: it does not depend on the order of visits. |
| `Unchoke.LeastSettledByReason` | ffmpeg/fftools/ffmpeg_sched.c:1285-1360 | A task is in that set if and only if there is a chain of reasons for it: from a seed, each task needed by the running demuxer before it. |
| `Ways.RootByWay` | ffmpeg/fftools/ffmpeg_sched.c:1324-1360 | The walk upstream ends at a task if and only if a way leads there: from a codec to its source, from a filtergraph to the source of its best input, up to a demuxer or a filtergraph that wants no input. |
| `Ways.WantedByWay` | ffmpeg/fftools/ffmpeg_sched.c:1310-1316 | A filtergraph waits for itself if it wants no input, and otherwise for the end of the way up from its best input. |
| `Ways.NeedsByWay` | ffmpeg/fftools/ffmpeg_sched.c:1289-1322 | The walk down from a node unchokes a task if and only if some way down, through first destinations of decoders and all destinations of encoders, ends at a filtergraph that waits for it. |
| `Ways.NeededByWay` | ffmpeg/fftools/ffmpeg_sched.c:1336-1338 | A running demuxer needs a task if and only if this is so below the first destination of one of its streams. |
| `Scheduler.WalkedFromNothing` | ffmpeg/fftools/ffmpeg_sched.c:1398-1446 | A walk that starts with everything choked and covers exactly the seeds ends with exactly the least closed set, although it stops at demuxers already unchoked. |
| `Scheduler.SchedulerState.UnchokeForStream` | ffmpeg/fftools/ffmpeg_sched.c:1324-1360 | The walk upstream ends, never meets a node type it cannot handle, and unchokes the root source and whatever has to run with it, and nothing else. |
| `Scheduler.SchedulerState.UnchokeDemux` | ffmpeg/fftools/ffmpeg_sched.c:1329-1342 | A demuxer already unchoked is not walked again, and the closure still comes out complete. |
| `Scheduler.SchedulerState.UnchokeDownstream` | ffmpeg/fftools/ffmpeg_sched.c:1289-1322 | The walk downstream ends, never meets a node type it cannot handle, and unchokes what the filtergraphs reached are waiting for, following the first destination only where the code does. |
| `Scheduler.SchedulerState.MarkSources` | ffmpeg/fftools/ffmpeg_sched.c:1415-1446 | The two loops together cover the sources of all eligible streams and all half-closed inputs and no others, and report whether a stream was eligible. |
| `Scheduler.SchedulerState.UnchokeEligible` | ffmpeg/fftools/ffmpeg_sched.c:1415-1434 | Every eligible stream's root source is covered, and nothing is covered without a reason. |
| `Scheduler.SchedulerState.UnchokeHalfClosed` | ffmpeg/fftools/ffmpeg_sched.c:1436-1446 | Every input closed by its receiver and not by its sender has its root source covered. |
| `Scheduler.SchedulerState.UnchokeFallback` | ffmpeg/fftools/ffmpeg_sched.c:1448-1459 | With no stream eligible, the first demuxer left, or else the first filtergraph left, is unchoked in addition, and only that one. |
| `Scheduler.SchedulerState.FinishRound` | ffmpeg/fftools/ffmpeg_sched.c:1461-1470 | The computed states take effect, and a decoder's queue follows its demuxer if and only if the demuxer changed. |
| `Scheduler.SchedulerState.ChokeDemux` | ffmpeg/fftools/ffmpeg_sched.c:1362-1390 | Exactly the decoders that are the first destination of one of the demuxer's streams are choked with it. |
| `Scheduler.ServedByOne` | ffmpeg/fftools/ffmpeg_sched.c:1362-1390 | No two demuxers disagree about a decoder's queue. |
| `Scheduler.SchedulerState.TrailingDts` | ffmpeg/fftools/ffmpeg_sched.c:438-458 | The least timestamp of the counted streams, or none if one has none yet, or if there is nothing below INT64_MAX. |
| `Scheduler.TrailingStreamEligible` | ffmpeg/fftools/ffmpeg_sched.c:1415-1434 | A trailing stream is let through if and only if its timestamp is not INT64_MAX. |
| `Scheduler.EligibleExactly` | ffmpeg/fftools/ffmpeg_sched.c:1415-1434 | While a stream that goes on has no timestamp, exactly those without one are let through; afterwards exactly those less than 100 ms ahead of every stream that goes on, unless all of these are at INT64_MAX. |
| `Scheduler.TrailingStreamHeldBack` | ffmpeg/fftools/ffmpeg_sched.c:438-458 | The input that shows the proviso is needed. |
| `Scheduler.TrailingSourceRuns` | ffmpeg/fftools/ffmpeg_sched.c:1406-1434 | The root source of every trailing stream is among the tasks that may run. |
| `Scheduler.SomebodyRuns` | ffmpeg/fftools/ffmpeg_sched.c:1448-1459 | If no task may run, every demuxer and every filtergraph has exited. |
| `Scheduler.SchedulerState.PacketSent` | ffmpeg/fftools/ffmpeg_sched.c:2008-2020 | The end of the packet becomes the stream's timestamp, and the schedule is right again. |
| `Scheduler.SchedulerState.SourceFinished` | ffmpeg/fftools/ffmpeg_sched.c:2194-2210 | Only this stream is finished, and the schedule is right again. |
| `Scheduler.SchedulerState.MuxDone` | ffmpeg/fftools/ffmpeg_sched.c:2238-2251 | All of this muxer's streams are finished, those of no other, and the schedule is right again. |
| `Scheduler.SchedulerState.FilterWants` | ffmpeg/fftools/ffmpeg_sched.c:2513-2524 | A filtergraph's new best input is followed by an update, an unchanged one by none. |
| `Scheduler.SchedulerState.FilterInputClosed` | ffmpeg/fftools/ffmpeg_sched.c:2547-2572 | An input is closed once, with an update, and closing it again changes nothing. The control stream is closed exactly when all inputs are. |
| `Scheduler.SchedulerState.FilterInputSent` | ffmpeg/fftools/ffmpeg_sched.c:2300-2302 | The producer's end of an input is recorded, and nothing is scheduled: the schedule may be out of date until the next update. |
| `Scheduler.SchedulerState.FilterChokesInputs` | ffmpeg/fftools/ffmpeg_sched.c:2637-2647 | A filtergraph under configuration wants no input, and the schedule is right again. |
| `Scheduler.SchedulerState.Terminate` | ffmpeg/fftools/ffmpeg_sched.c:2719-2727 | After a request to terminate no task may go on, and no decoder is held back by its demuxer. |
| `Scheduler.SchedulerState.DemuxExits` | ffmpeg/fftools/ffmpeg_sched.c:2170-2176 | The schedule is right again after a demuxer has exited. |
| `Scheduler.SchedulerState.FilterExits` | ffmpeg/fftools/ffmpeg_sched.c:2603-2622 | The control stream is closed and the schedule is right again after a filtergraph has exited. |
| `Scheduler.SchedulerState.StartPrepare` | ffmpeg/fftools/ffmpeg_sched.c:1583-1697 | Accepts if and only if every end is connected and no filtergraph is fed from its own output. |
| `Scheduler.SchedulerState.constructor` | ffmpeg/fftools/ffmpeg_sched.c:666-690 | With all nodes added and none connected, the scheduler is in order: no stream has a timestamp, nothing has finished. |
| `Scheduler.SchedulerState.Connect` | ffmpeg/fftools/ffmpeg_sched.c:937-1113 | Both ends of every link still agree. |
| `Topology.ConnectedEffect` | ffmpeg/fftools/ffmpeg_sched.c:937-1113 | Connecting adds one destination to one source, gives one sink its source, and leaves every other node as it was. |
| `Topology.ConnectKeepsLinked` | ffmpeg/fftools/ffmpeg_sched.c:937-1113 | Each destination's source field names the node that lists it, and the other way round, before and after. |
| `Topology.BuiltIsLinked` | ffmpeg/fftools/ffmpeg_sched.c:937-1113 | The same after any sequence of connections. |
| `Topology.FullyConnectedMeans` | ffmpeg/fftools/ffmpeg_sched.c:1587-1690 | What is looked for before the start is that every source leads somewhere and every sink is fed. |
| `CycleCheck.CheckAcyclic` | ffmpeg/fftools/ffmpeg_sched.c:1547-1581 | Success if and only if the upstream graph of filtergraphs has no cycle. |
| `CycleCheck.CheckAcyclicForOutput` | ffmpeg/fftools/ffmpeg_sched.c:1500-1545 | The search ends although it re-enters finished nodes. Success means that no path upstream from the filtergraph runs into a cycle, failure that there is a cycle. |
| `CycleCheck.StackHasRoom` | ffmpeg/fftools/ffmpeg_sched.c:1529-1531 | The assertion before the push holds. |
| `CycleCheck.DescendStep` | ffmpeg/fftools/ffmpeg_sched.c:1520-1534 | Going up to a filtergraph that is not on the stack keeps the stack a path without repetition, and brings the end of the search nearer. |
| `CycleCheck.PopStep` | ffmpeg/fftools/ffmpeg_sched.c:1536-1542 | A filtergraph is left only when no cycle can be reached from it, which is what the input it was entered by needs. |
| `CycleCheck.CycleStep` | ffmpeg/fftools/ffmpeg_sched.c:1523-1526 | Meeting a started filtergraph means that there is a cycle. |
| `CycleCheck.SrcFiltergraph` | ffmpeg/fftools/ffmpeg_sched.c:1480-1498 | The walk over decoders and encoders ends at the filtergraph or demuxer that feeds the node. |
| `Topology.WalkEndsOrNot` | ffmpeg/fftools/ffmpeg_sched.c:1480-1498 | The walk leaves the codecs after finitely many steps if and only if no cycle of codecs can be reached by it. |
| `Dag.CheckDecidesWholeGraph` | ffmpeg/fftools/ffmpeg_sched.h:55-56 | The whole graph has no cycle if and only if it passes the start-up check and decoders and encoders form no cycle among themselves. |
| `Dag.AcceptedIsAcyclic` | ffmpeg/fftools/ffmpeg_sched.c:1547-1581 | An accepted graph is acyclic as a whole. |
| `Dag.FiltersAcyclic` | ffmpeg/fftools/ffmpeg_sched.c:1547-1581 | No acyclic graph is refused for a cycle. |
| `Dag.CodecCycleGoesUnnoticed` | ffmpeg/fftools/ffmpeg_sched.c:1547-1581 | A decoder and an encoder, connected to each other one after the other: the graph passes the check and has a cycle. |
| `PreMux.MuxStart.FlushPreMuxQueues` | ffmpeg/fftools/ffmpeg_sched.c:1115-1175 | Flushing ends. It succeeds if and only if the send that would fail is not among those it has to make; then all queues are empty and the muxer counts as started, and otherwise that send is the last thing done. It reads every entry once and in the order of its stream, sends a stream's packets until the muxer closes it, and, if every stream's timestamped packets are in order of time, emits those of all streams in order of time, whatever ends and untimed packets are mixed in. |
| `PreMux.MuxStart.FindNext` | ffmpeg/fftools/ffmpeg_sched.c:1130-1147 | The first stream with an end or an untimed packet at its front, or else the one with the earliest packet. |
| `PreMux.NextKeepsOrder` | ffmpeg/fftools/ffmpeg_sched.c:1123-1172 | Emitting the chosen entry keeps the output merged: nothing left in any queue is earlier than what was emitted. |
| `Timestamps.CompareTsExact` | ffmpeg/libavutil/mathematics.c:147-158 | The comparison agrees with the exact order of the two rational times, whichever of its two ways is taken. |
| `Timestamps.RescaleDeltaSame` | ffmpeg/libavutil/mathematics.c:168-189 | With equal time bases the returned timestamp is the given one, whatever is remembered. |
| `Timestamps.RescaleQClose` | ffmpeg/libavutil/mathematics.c:58-145 | Rescaling moves a timestamp by half a tick of the new time base at most. |
| `Timestamps.RescaleDeltaClose` | ffmpeg/libavutil/mathematics.c:168-189 | The timestamp given back is within half an output tick of the input if nothing is remembered or the input is fine enough, and otherwise also within half an input tick and one sample. |
| `Timestamps.RescaleDeltaContinues` | ffmpeg/libavutil/mathematics.c:180-188 | With a coarse input the remembered end is taken, exactly, whenever it lies within the tick of the input. |
| `MuxChannel.DeliveredInOrder` | ffmpeg/fftools/ffmpeg_sched.c:1967-2023 | Over every interleaving of producers, the start of the muxer and the muxer: what has been received of a stream without an error is a prefix of what was sent, and all of it once the end has been received. |
| `MuxChannel.IdleMeansDelivered` | ffmpeg/fftools/ffmpeg_sched.c:1967-2023 | Whenever nothing is on its way or buffered, what the muxer's queue has given out of a stream without error is exactly what the calls of send_to_mux() offered. |
| `MuxChannel.NoDeadlock` | ffmpeg/fftools/ffmpeg_sched.c:1115-1175 | As long as something is on its way or buffered, a step can be taken that leaves less to do. |
| `MuxChannel.WorkRunsOut` | ffmpeg/fftools/ffmpeg_sched.c:1976-2006 | Every step other than a new packet or a close leaves less to do; only a muxer that finds nothing changes nothing. |
| `MuxChannel.HistoryIsTold` | ffmpeg/fftools/ffmpeg_sched.c:1967-2006 | What counts as offered, received and closed in a run is what its steps offered, gave out and closed. |
| `MuxChannel.DirectNeverOvertakes` | ffmpeg/fftools/ffmpeg_sched.c:1975-2006 | Whenever a producer sends directly, nothing of its stream waits in the pre-mux queue. |
| `MuxChannel.ErrorsComeFromOutside` | ffmpeg/fftools/ffmpeg_sched.c:1967-2006 | No send is refused as coming after the end: an error means that a pre-mux queue was full or the muxer's start failed. |
| `MuxChannel.NextInv` | ffmpeg/fftools/ffmpeg_sched.c:1976-2006 | Every step keeps: received, queued, buffered and in flight together are exactly what was sent, in order. |
| `ThreadQueue.ReceiveDelivers` | ffmpeg/fftools/thread_queue.c:156-225 | Receiving takes the oldest item of one open stream, or reports an end of which nothing is left, and loses nothing of the others; a choked receiver waits and changes nothing. |
| `ThreadQueue.ReceiveFresh` | ffmpeg/fftools/thread_queue.c:156-225 | Nothing is delivered of a stream closed by the receiver, and each end is reported once. |
| `ThreadQueue.SendAppends` | ffmpeg/fftools/thread_queue.c:117-154 | An item goes behind all others of its stream, unless either side has ended it; a sender told of the end by the receiver has ended it too. |
| `ThreadQueue.FinishAgain` | ffmpeg/fftools/thread_queue.c:227-241 | Finishing a stream again, as filtergraphs do for their outputs, does nothing but let a choked receiver go on; a later send is refused. |
| `ThreadQueue.EndIsTold` | ffmpeg/fftools/thread_queue.c:180-194 | As long as an end has not been told, a receiver that is not choked gets an item or an end. |
| `MuxStartup.MuxStarter.MuxInit` | ffmpeg/fftools/ffmpeg_sched.c:1179-1213 | A muxer that is ready for the first time is initialised, and the call fails only if a callback that it comes to does. The record stays in order: nothing happens twice, tasks start after their muxer's initialisation and, if an SDP is wanted, after that of all muxers and the writing of the SDP. |
| `MuxStartup.MuxStarter.StreamReady` | ffmpeg/fftools/ffmpeg_sched.c:1231-1254 | A muxer has been initialised if and only if all its streams are ready and the scheduler runs; the call fails only if a callback does; with no failures all muxers that may run do. |
| `MuxStartup.MuxStarter.StartReadyMuxers` | ffmpeg/fftools/ffmpeg_sched.c:1707-1718 | It succeeds if and only if no callback of a muxer ready beforehand fails; then each of these is initialised, and runs unless it waits for the SDP. |
| `MuxStartup.AlsoOk` | ffmpeg/fftools/ffmpeg_sched.c:1179-1213 | What may be added to the record without breaking its order. |
| `Handshake.HandshakeNeverStalls` | ffmpeg/fftools/ffmpeg_sched.c:2093-2135 | In every run, while the demuxer waits for an end timestamp: the reply is in exactly one place or will not come, a reply that is there belongs to this flush, and the wait can end or the decoder waited for can take a step. No decoder that owes a reply is ever blocked with it. |
| `Handshake.WaitIsBounded` | ffmpeg/fftools/ffmpeg_sched.c:2118-2120 | In every run, the decoder waited for takes no more steps during one wait than a number fixed at its start. |
| `Handshake.StepsRunOut` | ffmpeg/fftools/ffmpeg_sched.c:2265-2292 | Each of its steps lowers that number, and no other step raises it. |
| `Handshake.ReplyIsSomewhere` | ffmpeg/fftools/ffmpeg_sched.c:2113-2126 | While the demuxer waits exactly one holds: the flush is queued, the decoder owes the reply, the reply is in the slot, or the decoder is gone without one. |
| `Handshake.WaitingGoesOn` | ffmpeg/fftools/ffmpeg_sched.c:2118-2126 | While the demuxer waits, the wait can end with a reply or an error, or the very decoder waited for can move. |
| `Handshake.ReplyNeverBlocks` | ffmpeg/fftools/ffmpeg_sched.c:2265-2292 | Whoever owes a reply finds the slot empty and the demuxer waiting for that very reply. |
| `Handshake.FlushReturnsGreatestGiven` | ffmpeg/fftools/ffmpeg_sched.c:2093-2135 | In every run, a flush returns the greatest of the timestamps that decoders gave in reply since it began, or none if none of them is one; and one was given by every decoder that replies and still takes packets. |
| `Handshake.ReplyAnswersFlush` | ffmpeg/fftools/ffmpeg_sched.c:2116-2118 | In every run, what is received while waiting for a decoder is the timestamp that this decoder gave after the flush of this round was sent to it. |
| `Handshake.FlushReachesAll` | ffmpeg/fftools/ffmpeg_sched.c:2102-2114 | In every run, by the end of a flush every decoder that still takes packets has been sent it, replying or not. |
| `Handshake.QueueIsFifo` | ffmpeg/fftools/ffmpeg_sched.c:2265-2292 | In every run, what a decoder has taken and what is queued for it is what was sent to it while it was there, in order. |
| `Handshake.FlushReturnsMax` | ffmpeg/fftools/ffmpeg_sched.c:2122-2132 | The timestamp returned is the greatest of the replies received, one from every decoder asked. |
| `Handshake.NextInv` | ffmpeg/fftools/ffmpeg_sched.c:2265-2292 | A step keeps the account of one reply for each flush waited for if and only if it is not a packet without payload for a replying decoder that is still there; a decoder that leaves at any time is included. |
| `Handshake.EmptyPacketsJam` | ffmpeg/fftools/ffmpeg_sched.c:2277-2289 | Two packets without payload: a reply that nobody waits for fills the slot and a second one is owed. |
| `OutputEdges.EdgeHistory` | ffmpeg/fftools/ffmpeg_sched.c:2025-2059 | Over any sends, flushes and ends with any answers: a finished edge stays untouched, so nothing follows the finish; the signal is given once if the edge is finished and not at all otherwise; sending the end finishes. |
| `OutputEdges.Outputs.FlushDecoders` | ffmpeg/fftools/ffmpeg_sched.c:2102-2114 | Every decoder that is not finished is sent the flush, up to the first error; muxers and finished decoders are passed over, and no edge is finished by it. |
| `OutputEdges.EverythingIsAttempted` | ffmpeg/fftools/ffmpeg_sched.c:2025-2059 | Over any calls with any answers: every packet and flush is attempted exactly once until the first call that finishes the edge, and none after it. |
| `OutputEdges.DataIsSent` | ffmpeg/fftools/ffmpeg_sched.c:2043-2058 | On an edge that goes on, data is attempted once and the answer passed on; a consumer that has closed its side gets the finish signal after it. |
| `OutputEdges.SendKeepsOk` | ffmpeg/fftools/ffmpeg_sched.c:2311-2339 | One call keeps the edge in order, and reports EOF exactly if the edge is finished. |
| `OutputEdges.Outputs.Send` | ffmpeg/fftools/ffmpeg_sched.c:2424-2452 | One edge is acted on, and no other is touched. |
| `OutputEdges.Outputs.SendToAll` | ffmpeg/fftools/ffmpeg_sched.c:2061-2091 | Every destination gets the packet, or its end if it is a muxer at the end of stream copy, up to the first error; and EOF is reported exactly when no destination is left. |
| `OutputEdges.Outputs.SendEncoded` | ffmpeg/fftools/ffmpeg_sched.c:2454-2485 | Every destination gets the packet up to the first error, and EOF is never reported. |
| `OutputEdges.Outputs.FinishAll` | ffmpeg/fftools/ffmpeg_sched.c:2487-2501 | Afterwards every edge is finished and has been told so exactly once, whatever came before. |
| `FilterInputs.ControlClosedOnce` | ffmpeg/fftools/ffmpeg_sched.c:2294-2309 | Over every interleaving of producers: no input is closed twice, the control stream at most once and only after all inputs, and exactly once when all producers are done. |
| `FilterInputs.AllClosedInTheEnd` | ffmpeg/fftools/ffmpeg_sched.c:2294-2309 | Once every producer has been told to close its input and is done with it, every input and the control stream have been closed exactly once. |
| `FilterInputs.ProducerGoesOn` | ffmpeg/fftools/ffmpeg_sched.c:2300-2306 | A producer never waits for another, and is done after two more steps. |
| `FilterInputs.NextInv` | ffmpeg/fftools/ffmpeg_sched.c:2294-2309 | The atomic counter is the number of producers that have counted, and at most one of them goes on to close the control stream. |
| `Lifecycle.StoppedMeansDone` | ffmpeg/fftools/ffmpeg_sched.c:2712-2770 | In every run that ends stopped, however far the start got: each task was cleaned up after exactly once, all muxers are counted as done, and each destination of a demuxer, decoder or encoder was told the end exactly once. |
| `Lifecycle.StopGoesOn` | ffmpeg/fftools/ffmpeg_sched.c:2729-2762 | Stopping never gets stuck: a thread that it waits for has yet to exit, or it can go on itself. |
| `Lifecycle.WorkRunsOut` | ffmpeg/fftools/ffmpeg_sched.c:1699-1763 | Starting, exiting and stopping take a bounded number of steps, however they are mixed. |
| `Lifecycle.NeverTwice` | ffmpeg/fftools/ffmpeg_sched.c:2649-2710 | At no time has a task been cleaned up after twice, a muxer been counted twice, or a destination of a demuxer, decoder or encoder been told the end twice. |
| `Lifecycle.NextInv` | ffmpeg/fftools/ffmpeg_sched.c:1699-1763 | Every step of starting, running and stopping keeps the bookkeeping right. |
| `Lifecycle.ExitKeeps` | ffmpeg/fftools/ffmpeg_sched.c:2249-2263 | The assertion in mux_done() holds when a muxer's thread exits. |
| `Lifecycle.StopIdleKeeps` | ffmpeg/fftools/ffmpeg_sched.c:2693-2702 | It holds as well when a muxer that was never started is cleaned up after. |
| `Lifecycle.StartMuxKeeps` | ffmpeg/fftools/ffmpeg_sched.c:404-424 | No muxer can be started once it has been stopped: all tasks that could do so have been stopped before. |
| `Lifecycle.RefusedStartStopsNothing` | ffmpeg/fftools/ffmpeg_sched.c:2716-2717 | After a start refused by start_prepare(), stopping does nothing, and there was nothing to clean up. |
| `FrameRate.FpsConv.OutputFrame` | ffmpeg/fftools/ffmpeg_filter.c:2699-2774 | The frames sent are those of the description, all of them or as many as the consumer takes, with a frame or at the end of the stream, and the state afterwards counts those and no more; repetitions are of the last frame if there is one. |
| `FrameRate.FpsConv.VideoSyncProcess` | ffmpeg/fftools/ffmpeg_filter.c:2510-2631 | The counts, the counters, the history and the clock after a call with a frame, and after one without. |
| `FrameRate.FpsConv.ChooseFrames` | ffmpeg/fftools/ffmpeg_filter.c:2530-2598 | How often to output the frame and the one before it, and where the clock goes. |
| `FrameRate.VariableRateSends` | ffmpeg/fftools/ffmpeg_filter.c:2582-2588 | At a variable rate a frame is sent exactly once if it ends less than 0.6 output frames before the clock or after it, and not at all otherwise; within half an output frame of its start, clipped, or at the clock if it ends hardly after that. |
| `FrameRate.PassthroughSends` | ffmpeg/fftools/ffmpeg_filter.c:2589-2595 | Without conversion every frame is sent once, within half a tick of its own time. |
| `FrameRate.ConstantRateSends` | ffmpeg/fftools/ffmpeg_filter.c:2569-2580 | At a constant rate the frames sent start at the clock and are as many as there is room for up to the end of the frame, to the nearest; the first of them, as many as are missing before its start less 0.6, repeat the last frame. |
| `FrameRate.VariableStartSends` | ffmpeg/fftools/ffmpeg_filter.c:2562-2568 | With a variable start the first frame is sent within half an output frame of its own time, and as often as its duration calls for. |
| `FrameRate.LimitKept` | ffmpeg/fftools/ffmpeg_filter.c:2612-2619 | Neither more than the limit nor, if that is less, more than two are sent for one frame, and nothing within the limit is held back by it. |
| `FrameRate.DropsCounted` | ffmpeg/fftools/ffmpeg_filter.c:2606-2618 | The drop counter grows by one for a pending frame that the call does not repeat and by one for a call beyond the limit, and by nothing else. |
| `FrameRate.EndSends` | ffmpeg/fftools/ffmpeg_filter.c:2517-2520 | At the end the last frame is repeated as often as in the middle one of the last three calls. |
| `FrameRate.TimestampsIncrease` | ffmpeg/fftools/ffmpeg_filter.c:2536-2598 | Over a whole stream, its end included, the timestamps sent to the encoder increase strictly; at a constant rate they are consecutive integers, and start where the clock stood unless a variable start moved it. |
| `FrameRate.FramesConserved` | ffmpeg/fftools/ffmpeg_filter.c:2600-2629 | Emitted = received + duplicated - dropped - (1 if one is pending), over any run of frames with durations not negative in which the limit is never exceeded. |
| `FrameRate.StreamConserved` | ffmpeg/fftools/ffmpeg_filter.c:2517-2629 | The same for a whole stream with its end, except that exactly one frame too many is counted as dropped if the end does not keep the account. |
| `FrameRate.EndBalance` | ffmpeg/fftools/ffmpeg_filter.c:2517-2525 | The call at the end keeps the account if and only if it has not too much to repeat and, when it repeats nothing, no frame is pending; otherwise the account is off by one. |
| `FrameRate.PendingFrameCountsTwice` | ffmpeg/fftools/ffmpeg_filter.c:2522-2524 | Every stream at a constant rate whose last frame ends more than 1.1 output frames before the clock, after a call that repeated nothing, has that frame counted as dropped twice. |
| `FrameRate.StepBalance` | ffmpeg/fftools/ffmpeg_filter.c:2606-2629 | One call keeps the account balanced if and only if it passes the condition, the limit included; below the limit frames are only ever lost. |
| `FrameRate.KeepsBalanceByInput` | ffmpeg/fftools/ffmpeg_filter.c:2569-2580 | The condition in terms of the frame's time and duration and of the clock. |
| `FrameRate.RunBalance` | ffmpeg/fftools/ffmpeg_filter.c:2606-2629 | Over a run below the limit the account balances if and only if every single call kept it. |
| `FrameRate.DurationKeepsBalance` | ffmpeg/fftools/ffmpeg_filter.c:2575-2579 | A duration that is not negative is enough for the condition. |
| `FrameRate.NegativeDurationLosesFrames` | ffmpeg/fftools/ffmpeg_filter.c:2575-2579 | The input that shows the proviso is needed. |
| `FrameRate.FrameNumberCounts` | ffmpeg/fftools/ffmpeg_filter.c:2760-2762 | The counter of emitted frames is the number of frames sent. |
| `FrameRate.DroppedMeansNotOutput` | ffmpeg/fftools/ffmpeg_filter.c:2629-2629 | A frame is flagged as dropped if and only if the call sent only repetitions of the frame before it. |
| `FrameRate.ClockKeepsUp` | ffmpeg/fftools/ffmpeg_filter.c:2536-2580 | After every frame at a constant rate with the default drop threshold, the clock lags the end of the frame by at most half an output frame, clipped or not. |
| `FrameRate.NoDrift` | ffmpeg/fftools/ffmpeg_filter.c:2536-2580 | On contiguous input of any length the clock stays between half a frame behind and 2.1 frames ahead. |
| `FrameRate.Median3IsMedian` | ffmpeg/fftools/ffmpeg_filter.c:2489-2503 | One of the three, with at most one below and at most one above. |
| `AudioTimebase.AudioClock.AudioSamplerateUpdate` | ffmpeg/fftools/ffmpeg_dec.c:203-244 | The time base and what is remembered in it after a frame. |
| `AudioTimebase.AudioClock.AudioTsProcess` | ffmpeg/fftools/ffmpeg_dec.c:246-281 | The same with the predicted timestamp, the gap detection and the timestamp given to the frame. |
| `AudioTimebase.TimedFrameKeepsTime` | ffmpeg/fftools/ffmpeg_dec.c:259-280 | A frame with a timestamp keeps its time: within half a tick of the decoder's time base if it starts late or its own is fine enough, within half a tick of its own and one of the decoder's in any case; the timestamp it is given is that to half a sample. |
| `AudioTimebase.LateMeansGap` | ffmpeg/fftools/ffmpeg_dec.c:262-264 | What counts as a gap is later than predicted, and everything later by a tick of the frame's time base counts. |
| `AudioTimebase.GapResets` | ffmpeg/fftools/ffmpeg_dec.c:265-267 | After a gap the frame is converted as if nothing were remembered. |
| `AudioTimebase.GoesOnWithoutGap` | ffmpeg/fftools/ffmpeg_dec.c:269-273 | Without a gap the frame goes on exactly where the conversion was, if its time base is too coarse to tell the difference. |
| `AudioTimebase.ConversionEnd` | ffmpeg/fftools/ffmpeg_dec.c:269-275 | The end remembered by the conversion is the number of samples after the timestamp, in ticks of the decoder's time base: the end of the frame if and only if a tick is a sample or there are none. |
| `AudioTimebase.UpdateRefines` | ffmpeg/fftools/ffmpeg_dec.c:215-231 | Without fallback the new denominator is a multiple of the old one and of the sample rate, and divides every other common multiple unless the frame's finer time base was taken. |
| `AudioTimebase.FallbackOnlyIfLarge` | ffmpeg/fftools/ffmpeg_dec.c:217-225 | The fallback is taken only if the least common multiple is within one sample rate of INT_MAX or beyond. |
| `AudioTimebase.FinerTimeBaseTaken` | ffmpeg/fftools/ffmpeg_dec.c:227-231 | The frame's own time base is taken if and only if it is 1/k for a proper multiple k of the common denominator. |
| `AudioTimebase.LcmIsLeast` | ffmpeg/fftools/ffmpeg_dec.c:215-225 | The formula gives a common multiple that divides all common multiples. |
| `AudioTimebase.DenBounds` | ffmpeg/fftools/ffmpeg_dec.c:217-225 | The denominator stays positive and at most INT_MAX, and a newly formed one is below INT_MAX, so that the product does not overflow. |
| `AudioTimebase.UpdateExact` | ffmpeg/fftools/ffmpeg_dec.c:233-237 | The remembered timestamp and duration denote the same times after the rescale as before. |
| `AudioTimebase.AllRatesFit` | ffmpeg/fftools/ffmpeg_dec.c:246-257 | Over any sequence of frames with any timestamps, as long as the fallback is not taken, every sample rate seen divides the denominator. |
| `AudioTimebase.NoRoundingAccumulates` | ffmpeg/fftools/ffmpeg_dec.c:256-275 | Over any sequence of frames without timestamps and without fallback, the predicted next timestamp is exactly the playing time of all frames so far. |
| `AudioTimebase.UntimedFollows` | ffmpeg/fftools/ffmpeg_dec.c:259-275 | A frame without timestamp follows the one before it without a gap. |
| `AudioTimebase.FallbackRates` | ffmpeg/fftools/ffmpeg_dec.c:222-223 | Thirteen usual sample rates divide the fallback, 384000 does not. |
| `MuxTimestamps.MuxStream.MuxFixupTs` | ffmpeg/fftools/ffmpeg_mux.c:138-207 | The packet written, its duration, the timestamp remembered and the refusals, including the rescale to the stream's time base. |
| `MuxTimestamps.TimesKept` | ffmpeg/fftools/ffmpeg_mux.c:142-163 | Timestamps keep their times within half a tick of the stream's time base, and those lacking stay so. |
| `MuxTimestamps.AudioTimeKept` | ffmpeg/fftools/ffmpeg_mux.c:148-161 | Copied audio keeps the time of its dts within half a tick of the input, one sample and half a tick of the output, for both timestamps. |
| `MuxTimestamps.WrittenInOrder` | ffmpeg/fftools/ffmpeg_mux.c:166-201 | Over any stretch of packets that have a dts, in any run: the dts written increase (strictly if the format is strict) and no pts is before its dts. |
| `MuxTimestamps.RepairedRun` | ffmpeg/fftools/ffmpeg_mux.c:166-201 | For every run, packets without timestamps included: each packet written is valid after the one before it, timestamps are present where they were, and the run goes through unchanged if and only if it was valid. |
| `MuxTimestamps.RepairMakesFine` | ffmpeg/fftools/ffmpeg_mux.c:166-201 | A repaired packet is valid after the last one, and it is changed if and only if it was not. |
| `MuxTimestamps.RepairIsLeast` | ffmpeg/fftools/ffmpeg_mux.c:180-198 | A dts that is too early becomes the least that may follow, and pts is moved along only if it would come before it. |
| `MuxTimestamps.WrittenAsGuessed` | ffmpeg/fftools/ffmpeg_mux.c:166-201 | What is not refused with exit_on_error, and every packet of other stream types, is written as guessed; formats without timestamps have theirs left alone. |
| `MuxTimestamps.RepairIdempotent` | ffmpeg/fftools/ffmpeg_mux.c:166-201 | Repairing a repaired run changes nothing. |
| `MuxTimestamps.GuessIsMedian` | ffmpeg/fftools/ffmpeg_mux.c:167-176 | The sum less least and greatest is the middle one of pts, dts and the dts after the last. |
| `MuxTimestamps.RefusedIffTooEarly` | ffmpeg/fftools/ffmpeg_mux.c:181-190 | With exit_on_error a packet is refused if and only if its dts, once guessed, is too early. |
| `MuxTimestamps.MissingDtsForgets` | ffmpeg/fftools/ffmpeg_mux.c:201-201 | What follows a packet without dts is written exactly as at the start of a stream, whatever came before. |
| `MuxTimestamps.DtsGoesBack` | ffmpeg/fftools/ffmpeg_mux.c:177-201 | A run in which dts 5 is written after dts 10, across a packet without dts. |
| `MuxTimestamps.AfterGap` | ffmpeg/fftools/ffmpeg_mux.c:166-201 | A packet is written after the last dts there was if and only if that is remembered or the smaller of its timestamps is late enough. |
| `MuxTimestamps.InOrderAcrossGaps` | ffmpeg/fftools/ffmpeg_mux.c:166-201 | For every run: the dts written increase over the whole run if and only if the first packet with dts after every gap meets that condition. |
| `MuxTimestamps.StartIsWritten` | ffmpeg/fftools/ffmpeg_mux.c:167-176 | With nothing remembered a packet gets the smaller of its timestamps as dts. |
| `Discontinuity.DemuxerTs.TsFixup` | ffmpeg/fftools/ffmpeg_demux.c:292-370 | The packet, the shared offset and the stream's prediction after a packet of any stream. |
| `Discontinuity.DemuxerTs.TsDiscontinuityDetect` | ffmpeg/fftools/ffmpeg_demux.c:224-290 | The same for the detection alone. |
| `Discontinuity.InterleavedStreamsStayOnCourse` | ffmpeg/fftools/ffmpeg_demux.c:243-310 | However streams are interleaved: each audio or video packet is moved, pts and dts alike, by the offset in force after it; and of two packets of a stream with dts, and any number without in between, the second is at most 100 ms before the first and at most the threshold from the prediction, which is not before the first. |
| `Discontinuity.StreamMovesOn` | ffmpeg/fftools/ffmpeg_demux.c:327-341 | From a packet with dts on, the stream's own dts and prediction do not go back, packets without dts included. |
| `Discontinuity.ShiftedByOffset` | ffmpeg/fftools/ffmpeg_demux.c:292-310 | In discontinuous formats every packet of any stream is moved by exactly the shared offset. |
| `Discontinuity.MovedOnlyIfNeeded` | ffmpeg/fftools/ffmpeg_demux.c:243-256 | In a stream under way the offset changes if and only if the packet is beyond the threshold or back by more than 100 ms, and then the packet is put exactly where it was predicted. |
| `Discontinuity.FirstMovedOnlyIfNeeded` | ffmpeg/fftools/ffmpeg_demux.c:275-287 | For the first packet of a stream it changes if and only if that is beyond the threshold of the last packet of any stream, and then to that one's time. |
| `Discontinuity.LastTsRemembered` | ffmpeg/fftools/ffmpeg_demux.c:289-309 | Audio and video packets with dts are remembered as the last of any stream; nothing else is looked at. |
| `Discontinuity.CopiedUnchanged` | ffmpeg/fftools/ffmpeg_demux.c:230-243 | With copy_ts nothing is moved in formats and streams whose timestamps do not wrap. |
| `Discontinuity.StaysOnCourse` | ffmpeg/fftools/ffmpeg_demux.c:243-256 | The bounds for one packet of a stream under way. |
| `Discontinuity.StartsOnCourse` | ffmpeg/fftools/ffmpeg_demux.c:275-287 | The first packet of a stream is within the threshold of the last packet of any stream. |
| `Discontinuity.OutliersRemoved` | ffmpeg/fftools/ffmpeg_demux.c:257-274 | In other formats nothing is moved, and what is left of the timestamps is within the error threshold of the prediction. |
| `Discontinuity.StreamRemembers` | ffmpeg/fftools/ffmpeg_demux.c:312-370 | In every run a stream's state is that of its own latest packet, whatever the others did. |
| `Discontinuity.PredictionMovesOn` | ffmpeg/fftools/ffmpeg_demux.c:333-365 | The prediction is never before the dts it was made from. |
| `Discontinuity.PredictionAdvances` | ffmpeg/fftools/ffmpeg_demux.c:333-365 | How far the prediction advances: by the samples, the duration, or the fields, or by one frame of a forced rate to within half a frame and half a microsecond. |
| `Discontinuity.UntimedTakesPrediction` | ffmpeg/fftools/ffmpeg_demux.c:317-333 | A packet without dts takes the predicted one; the first of a stream its pts after the decoder's delay. |
| `Discontinuity.FrameRateMovesOn` | ffmpeg/fftools/ffmpeg_demux.c:345-349 | Nor is it at a forced frame rate, although it is rounded twice. |

## Left out

- Threads, mutexes and condition variables themselves, and memory ordering. A scheduling update is one atomic step, and `sch_stop()` does not run during one.
- The protocols between threads (`MuxChannel`, `Handshake`, `FilterInputs`, `Lifecycle`) are on values, with one step for each section that is atomic in the original, since Dafny's objects have no interleaving.
- The demuxer, decoder and encoder loops of `OutputEdges` are one class, as they differ only in whether EOF is reported and whether muxers can be ended early. Filtergraphs keep no account of finished destinations and may tell them the end twice; what the receiving queue makes of it is `ThreadQueue.FinishAgain` and `FilterInputs`.
- Scheduler.SchedulerState.StartPrepare: does not cover complete graphs in which a filtergraph is fed from a cycle of decoders and encoders; the search gets caught in it, unless it has found another cycle before.
- Scheduler.SchedulerState.ScheduledProgress: says nothing of graphs with a cycle of decoders and encoders, in which the walk upstream need not end.
- Scheduler.SchedulerState.Connect: adding nodes (`sch_add_*`) is left out; all nodes are there before the first connection.
- Scheduler.SchedulerState.ScheduleUpdateLocked: waiters hold no threads here; how a waiter wakes its thread is left out.
- MuxChannel.DeliveredInOrder: says nothing of a stream for which a sender was given an error, or what comes after an error of the muxer's start; that a pre-mux queue is full can happen at any time, its limits are not modelled.
- Handshake.HandshakeNeverStalls: says that steps are possible and, with `WaitIsBounded`, that they run out, not that threads are given time to take them; decoders' input queues are unbounded, and packets with neither data nor side data do not go to decoders that reply.
- OutputEdges.EdgeHistory: subtitle heartbeats, which go to decoders beside the edges, are left out.
- Lifecycle.StoppedMeansDone: that every thread ends once termination is requested is left out; stopping waits for it.
- FrameRate.FpsConv.OutputFrame: key frame flags, the dummy frame for an output that never had one, and the end sent after the last frames, are left out.
- FrameRate.FpsConv.ChooseFrames: times are exact reals; narrowing to float, the nudge in the conversion of timestamps, and the durations written into frames are left out.
- FrameRate.FpsConv.VideoSyncProcess: the flag for a dropped key frame and the growing limit of the warning are left out.
- FrameRate.NoDrift: asks for input frames that follow each other without a gap; with gaps `ClockKeepsUp` bounds the lag only.
- AudioTimebase.AudioClock.AudioTsProcess: products of 64-bit rescaling do not overflow here.
- AudioTimebase.AllRatesFit: once the fallback has been taken rates may not fit; `FallbackRates` says which do.
- MuxTimestamps.RepairedRun: 64-bit overflow of the sum in the guess is left out; packets refused with `exit_on_error` end the run.
- Discontinuity.InterleavedStreamsStayOnCourse: in microseconds only, and with durations that are not negative; other time bases round the offset.
- Discontinuity.DemuxerTs.TsFixup: in microseconds only; the correction of wrapped timestamps and the scaling that `ts_fixup()` does before are left out.
- Discontinuity.DemuxerTs.TsDiscontinuityDetect: in microseconds only.
- The sync queue between filters and encoders is left out; it only sends.
- Subtraction of two 64-bit timestamps when a stream is compared with the trailing one does not overflow here.
- Read rates, the wall clock, statistics, options, logging, allocation failure, and everything that libavfilter, libavcodec and libavformat do.
