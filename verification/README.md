# Verified models of bluetootch

The repository holds two Windows programs. ControlPPt drives a slide show from remote commands; fastnet is a
small completion-port network library with an echo server. This project models their concurrent and stateful
parts in Dafny 4.11 and proves what the code promises about them. `dafny verify dfyconfig.toml` checks it.

Each concurrent part is a state machine whose steps are single atomic actions of single threads, so a schedule is
a sequence of steps and every result about runs holds for every interleaving. Beside it stands a class with the
fields of the source; its methods perform one action each and are proved to be the corresponding step.

| files | part of the repository |
|---|---|
| TaskPollModel, TaskPollSafety, TaskPollLiveness, TaskPollOutcome, TaskPoll | the thread pool of ControlPPt |
| ByteCodec, Messages | little-endian headers and the three message classes |
| SocketWire, SocketChannel | length-prefixed messages over a socket |
| PipeWire, PipeChannel | length-prefixed messages over a named pipe, with the shared header field |
| SessionBuffer | the 101-byte buffer of the session handlers |
| EchoModel, Session | the echo session on top of a channel |
| EchoSystem, EchoRoundTrip, EchoCompletion, EchoReorder | client, session and both streams as one step system |
| DispatcherModel, DispatcherRunners, DispatcherTrace, DispatcherProofs, Dispatcher | the completion dispatcher and who owns and runs a callback |
| SingletonModel | double-checked locking |
| CommandText, CommandParser | the incremental `;` splitter |
| Totals | sums over sequences |

## What holds and what does not

- **Thread pool.** Mutual exclusion, FIFO hand-out, at-most-once execution and no lost wake-up hold whatever `Stop`
  does. Nothing is run that `Post` was not given. If `Stop` is never called, a pool at rest has run every function given
  to `Post` exactly once; what `Stop` finds queued is never run. Once the flag is up at most one more task is begun.
  `Stop` stores `false`
  (task_poll.cpp:28), so as written it can return only when there is no other thread to join. Storing `true` is not
  enough: stored and notified before the mutex is taken, as the lines are ordered, shutdown hangs exactly when a
  worker stands between its test and its wait and nobody else will notify. Stored and notified under the mutex,
  shutdown always ends.
- **Socket channel.** What the session receives is a prefix of what the peer sent unless a header read completes with
  an empty error code and fewer than 8 bytes that spell length zero. End of stream is such a completion, and so is a
  submission that fails at once (socket_handle_t.cc:109-113). The session then sees an empty message nobody sent. The
  other exception is a peer that gives an empty body an id other than 0: the id is lost. `network::message` never does.
  Every other short read, an error completion and a length that does not fit end the reading for good.
- **Pipe channel.** The same holds, ids included, unless the read of a body completes with no bytes and an empty code
  (pipe_channel.cc:159-163); the session then gets a message of zeros. One read chain per channel is needed, because
  chains share `header_`; the session keeps to one.
- **Echo order.** The session has at most one read in flight, and has one until a read fails. Its echoes keep the
  client's order in every run without inline deliveries exactly if the dispatcher has at most one worker. One worker
  is not enough by itself: `socket_handle_t::async_read` runs the handler at once when data is there
  (socket_handle_t.cc:114-117), inside the handler that armed the read and before its echo is written. With one worker,
  echoes keep the order exactly in the runs in which that never delivers a message.
- **Session buffer.** `handle_read` copies a message into `sz_buf[101]` and prints it as a C string, without a check
  (session.cc:66-68, pipe_session.cc:48-50). It stays inside the buffer exactly for bodies of at most 100 bytes, and
  for bodies of 101 bytes with a zero among them. A client can make the session leave its buffer with one frame
  exactly if the frame's body is any other.
- **Round trip.** With one worker, no inline delivery and no unnoticed completion, the client receives a prefix of what
  it sent, body for body, and the session stays inside its buffer if every body sent does. If nothing fails, a
  bounded number of moves brings every body back.
- **Dispatcher.** Each callback has one owner and is begun at most once, unless a wait fails without an APC, because
  `ret_number` then still counts the last batch, or an immediate success still queues a packet. In both cases a run
  begins a callback again that has been freed; sockets are opened in the mode that queues no such packet
  (socket_handle_t.cc:46-49). Otherwise a handler is begun by a worker exactly if its callback went
  through the port, and by its submitter if not. A throwing handler costs at most 63 callbacks for each worker.
  An APC ends a waiting worker for good, and `stop()` ends a dispatcher whose workers wait. Callbacks the port still
  holds then are never run nor freed.
- **Command parser.** `Parse` splits the received text, not its buffer, and hands the tail over as a command. The
  commands acted on are those of the whole stream exactly when every cut lies beside a `;` or at an end. `buf_` is the
  unterminated tail only under a further condition, stated exactly; texts that end with `;` pile up in it whole.

## Assumptions

- Steps are sequentially consistent. A mutex is free or owned by one thread; a condition variable may wake a waiter
  spuriously; `notify_all` wakes all waiters.
- `Start` has returned before the pool's other steps begin. A task may call `Stop`; a call of `Post` made inside a task
  is one of the posters.
- Every function posted to the pool returns and none throws: what is said about the pool coming to rest, draining and
  shutting down depends on it.
- Each `async_write` puts its bytes on the stream as a whole. The stream keeps order and loses nothing. A read that
  completes with an error code takes no bytes that matter, since the session stops reading.
- Each completion reaches its handler once, which the dispatcher's results give where its two hazards do not happen.
- `session::start` runs in the accept handler on a dispatcher worker (server_mgr.cc:58-62). A first message delivered
  inline there is the step Dispatch on this worker, because `start` does nothing after it arms the read.
- The asserts of the channels are active.
- Sizes are those of the Win32 build: `size_t`, `int` and `DWORD` have 32 bits, and a signed sum that overflows wraps.
- The completion port is first in, first out. Handlers throw only exceptions derived from `std::exception`.

## Model

| member | source | states |
|---|---|---|
| TaskPollObject.TaskPoll.constructor | ControlPPt/source/PPTServer/task_poll.cpp:5-7 | a new pool is empty, its flag down, no thread started |
| TaskPollObject.TaskPoll.Start | ControlPPt/source/PPTServer/task_poll.cpp:11-26 | success exactly when every thread could be created; the pool keeps one worker and one handle for each that was |
| TaskPollObject.TaskPoll.StepWorker | ControlPPt/source/PPTServer/task_poll.cpp:52-66 | one action of a worker is the model's worker step and keeps the pool invariant |
| TaskPollObject.TaskPoll.StepPoster | ControlPPt/source/PPTServer/task_poll.cpp:47-51 | one action of Post is the model's poster step, which PostedIsGiven is about, and keeps the pool invariant |
| TaskPollObject.TaskPoll.StepStopper | ControlPPt/source/PPTServer/task_poll.cpp:27-46 | one action of Stop, with the stored value and the place of the store as parameters, is the model's stopper step, which StopSettlesEveryTicket is about |
| TaskPollObject.TaskPoll.JoinNext | ControlPPt/source/PPTServer/task_poll.cpp:35-45 | one round of the join loop passes a thread that has ended or the caller itself, and keeps the pool invariant |
| TaskPollObject.TaskPoll.CallStopFrom | ControlPPt/source/PPTServer/task_poll.cpp:27-28 | Stop may be called from outside or from a posted function that a worker is running |
| TaskPollObject.TaskPoll.WakeSpuriously | ControlPPt/source/PPTServer/task_poll.cpp:55-57 | a wait may return unnotified, which keeps the pool invariant |
| TaskPollSafety.StepKeepsInv | ControlPPt/source/PPTServer/task_poll.cpp:27-66 | every step of every thread keeps mutual exclusion, flag, phase, wake-up, ticket and join invariants |
| TaskPollSafety.ReachableInv | ControlPPt/source/PPTServer/task_poll.cpp:5-66 | the invariant holds in every state of every run, for any number of workers and posters |
| TaskPollSafety.FrontNeverOnEmptyList | ControlPPt/source/PPTServer/task_poll.cpp:55-62 | front and pop_front are never reached on an empty list, although the flag may change between the tests |
| TaskPollSafety.NoLostWakeUp | ControlPPt/source/PPTServer/task_poll.cpp:47-57 | beside a queued entry whose notify is done no worker sleeps, and every worker not busy or gone can move now or waits for a mutex owner that can |
| TaskPollSafety.TaskConservation | ControlPPt/source/PPTServer/task_poll.cpp:31-64 | posted is taken followed by queued; a ticket is running or finished, once, exactly when it was handed to a worker and not discarded |
| TaskPollSafety.SingleWorkerIsFifo | ControlPPt/source/PPTServer/task_poll.cpp:52-66 | with the single worker the control center asks for, execution order is posting order |
| TaskPollOutcome.PostedIsGiven | ControlPPt/source/PPTServer/task_poll.cpp:47-51 | over all runs, what has been posted and what calls of Post have yet to push is, with multiplicity, what Post was given |
| TaskPollOutcome.RunsOnlyWhatWasGiven | ControlPPt/source/PPTServer/task_poll.cpp:47-66 | over all runs, Stop or not, no function is run that Post was not given, nor more often than it was |
| TaskPollOutcome.EveryPostIsRunOnce | ControlPPt/source/PPTServer/task_poll.cpp:47-66 | if Stop is not called, a pool at rest has run every function given to Post exactly once |
| TaskPollOutcome.StopSettlesEveryTicket | ControlPPt/source/PPTServer/task_poll.cpp:30-34 | when Stop is about to release the mutex the list is empty and everything posted has been handed over or thrown away |
| TaskPollOutcome.DiscardedForGood | ControlPPt/source/PPTServer/task_poll.cpp:30-34 | a ticket posted by then and not handed to a worker is begun in no continuation |
| TaskPollOutcome.FlagAllowsOneMore | ControlPPt/source/PPTServer/task_poll.cpp:53-64 | once the flag is up at most one more task is begun, and none if no worker has passed its last test |
| TaskPollOutcome.NoLockAfterFlag | ControlPPt/source/PPTServer/task_poll.cpp:53-64 | with the flag up, a worker in a task or at its loop test never asks for the mutex again |
| TaskPollOutcome.SpuriousWakeRescues | ControlPPt/source/PPTServer/task_poll.cpp:55-57 | a forgotten sleeper that wakes spuriously does not sleep again |
| TaskPollLiveness.StepUsesPotential | ControlPPt/source/PPTServer/task_poll.cpp:27-66 | every step but a spurious wake-up uses up work, whatever Stop stores and wherever |
| TaskPollLiveness.RunIsBounded | ControlPPt/source/PPTServer/task_poll.cpp:27-66 | a run is no longer than its initial work plus five steps for each spurious wake-up |
| TaskPollLiveness.RestMeansDrained | ControlPPt/source/PPTServer/task_poll.cpp:47-66 | if Stop is not called, a pool at rest has an empty queue, all its workers parked and every posted entry run to its end |
| TaskPollLiveness.StepKeepsRescued | ControlPPt/source/PPTServer/task_poll.cpp:27-60 | once the flag is up and notified, whoever sleeps keeps a poster that will still notify |
| TaskPollLiveness.RestMeansStopped | ControlPPt/source/PPTServer/task_poll.cpp:27-60 | no deadlock on the way out: at rest every worker has left Run, Stop has returned and every Post is done |
| TaskPollLiveness.ShutdownEnds | ControlPPt/source/PPTServer/task_poll.cpp:27-60 | with true stored and notified under the mutex, every run after the notify is bounded, spurious wake-ups included, and rests only with everybody stopped |
| TaskPollLiveness.CalledStopReturns | ControlPPt/source/PPTServer/task_poll.cpp:27-46 | under the same order every call of Stop has returned by the time the pool rests |
| TaskPollLiveness.ForgottenStaysAsleep | ControlPPt/source/PPTServer/task_poll.cpp:28-30 | a sleeper with no notifier left sleeps through every run without a spurious wake-up |
| TaskPollLiveness.OutsideLockExactly | ControlPPt/source/PPTServer/task_poll.cpp:28-30 | with true stored and notified before the mutex, the pool always shuts down if and only if at the notify no worker is between test and wait, or some poster has yet to notify |
| TaskPollLiveness.OutsideLockCanHang | ControlPPt/source/PPTServer/task_poll.cpp:28-57 | a five-step run reaches a state where that fails |
| TaskPollLiveness.StoringFalseFreesNobody | ControlPPt/source/PPTServer/task_poll.cpp:28-45 | with false stored, as written, no worker ever leaves Run |
| TaskPollLiveness.StoringFalseReturnsExactly | ControlPPt/source/PPTServer/task_poll.cpp:27-46 | Stop as written can return if and only if the pool has no thread, or its only worker calls Stop itself |
| TaskPollLiveness.AsWrittenReturnsExactly | ControlPPt/source/PPTServer/task_poll.cpp:27-46 | the same for the code's own order: false, stored before the mutex is taken |
| ByteCodec.EncodeIsLittleEndian | fastnet/include/message.h:11-16 | the four bytes of a field are its base-256 digits, lowest first |
| ByteCodec.EncodeLayout | fastnet/include/message.h:25-33 | a frame is four bytes of length, four of id, each lowest first, then the body |
| ByteCodec.DecodeEncodeU32 | fastnet/include/message.h:11-16 | a 32-bit field, written lowest byte first, is read back as the value written |
| ByteCodec.EncodeDecodeU32 | fastnet/include/message.h:11-16 | four header bytes are the encoding of the value read from them |
| ByteCodec.EncodePrefixFree | fastnet/include/message.h:11-33 | no frame is a proper prefix of another |
| ByteCodec.EncodeAllPrefix | fastnet/include/message.h:11-33 | a byte stream that begins with the encoding of some frames carries exactly those frames first |
| ByteCodec.EncodeAllInjective | fastnet/include/message.h:11-33 | equal byte streams carry equal frame sequences |
| Messages.FrameSizeExact | fastnet/include/message.h:42-45 | the 32-bit size is header plus body, and covers the header at all, if and only if the body has at most 2^32-9 bytes |
| Messages.BufferIsEncoding | fastnet/include/message.h:25-45 | a buffer as long as its header says is the encoding of the frame read from it |
| Messages.Message.Empty | fastnet/include/message.h:17-24 | a fresh message is the empty frame with id 0 |
| Messages.Message.FromBuffer | fastnet/include/message.h:25-33 | the vector has the wrapped size; the writes run past it if and only if the length is beyond 2^32-9, and otherwise the buffer is length, id 0, each lowest byte first, and the body |
| Messages.Message.Size | fastnet/include/message.h:42-49 | the wrapped 32-bit sum; the buffer's length when the buffer is a frame |
| Messages.Message.AllocWithHeader | fastnet/include/message.h:78-83 | after a received header the vector has the wrapped size; writing the header back runs past it if and only if the length is beyond 2^32-9, and otherwise the buffer is well-sized again with the header kept and a zeroed body |
| Messages.Message.Wire | fastnet/source/dispatcher/socket_channel.cc:34-45 | the bytes async_write hands over are the encoding of the message's frame: length before id, each lowest byte first |
| Messages.PipeSizeExact | fastnet/include/pipe_message.h:78-82 | which signed lengths allocate header and body, which allocate less than the header, and which ask for a negative size |
| Messages.PipeMessage.constructor | fastnet/include/pipe_message.h:21-31 | for any size_t length and a null or given body: the writes run past the wrapped size if and only if it is beyond 2^32-9, and otherwise the buffer is the encoding of the body, or of zeros, with the 32 bits of id and length |
| Messages.PipeMessage.Wire | fastnet/source/dispatcher/pipe_channel.cc:113-127 | the bytes async_write hands over are the encoding of the message's frame: length before id, each lowest byte first |
| Messages.PipeMessage.MallocWhenRecvdHeader | fastnet/include/pipe_message.h:78-82 | for any announced length: header and zeroed body if it is 0 to 2^31-9, a header write past the vector if it is -8 to -1, and a refusal that changes nothing otherwise |
| Messages.PcMessage.FromBuffer | ControlPPt/source/PCControl/message.hpp:17-23 | for any int length: id in the first four bytes and length in the next, lowest byte first, and the body, if the vector takes them; otherwise which way it fails |
| Messages.PcMessage.SetDataLen | ControlPPt/source/PCControl/message.hpp:50-55 | writes the length to bytes 4 to 7, lowest first, and leaves id and body alone |
| Messages.PcMessage.SetMsgId | ControlPPt/source/PCControl/message.hpp:56-61 | writes the id to bytes 0 to 3, lowest first, and leaves length and body alone |
| Messages.PcMessage.Alloc | ControlPPt/source/PCControl/message.hpp:62-68 | for any int length: keeps the id, sets the length and keeps as much of the body as fits if the vector takes them; otherwise which way it fails and what the vector then holds |
| SocketChannel.Channel.AsyncRead | fastnet/source/dispatcher/socket_channel.cc:46-65 | a new header-sized message is armed for the next read |
| SocketChannel.Channel.HandleReadHeader | fastnet/source/dispatcher/socket_channel.cc:66-96 | with the bytes the kernel left in the buffer, the handler is the reader's header step, and with an error the wire's failing step |
| SocketChannel.Channel.HandleReadBody | fastnet/source/dispatcher/socket_channel.cc:97-110 | the handler is the reader's body step, and with an error the wire's failing step |
| SocketChannel.Channel.HandleRead | fastnet/source/iocp_server/session.cc:56-69 | the session takes a message and arms one read on a new message, or stops on an error; it leaves sz_buf if and only if the message does not stay inside |
| SessionBuffer.StaysInsideExactly | fastnet/source/iocp_server/session.cc:66-68 | copying and printing stay inside sz_buf if and only if the body has at most 100 bytes, or 101 with a zero among them |
| SessionBuffer.FirstOverruns | fastnet/source/iocp_server/pipe_session.cc:48-50 | a 102-byte body overruns the copy; 101 bytes without a zero fit the copy and overrun the print |
| SessionBuffer.Print | fastnet/source/iocp_server/session.cc:68 | printing shows the bytes before the first zero and stays inside if and only if there is one |
| SessionBuffer.EchoIsBody | fastnet/source/iocp_server/session.cc:66-70 | a body that fits the buffer comes back from it unchanged, as a frame with id 0 |
| SocketWire.StepKeepsSyncExactly | fastnet/source/dispatcher/socket_channel.cc:66-110 | whatever part of a read completes, a step keeps delivered frames and remaining bytes in step if and only if it is not one of the two unnoticed header completions |
| SocketWire.SyncedExactly | fastnet/source/dispatcher/socket_channel.cc:66-110 | over whole runs: every state is in step if and only if neither completion happens |
| SocketWire.FramingSafety | fastnet/source/dispatcher/socket_channel.cc:34-110 | over whole runs: delivered is a prefix of sent, and consumed plus remaining bytes are the encoding of everything sent |
| SocketWire.DeliveredIsPrefix | fastnet/source/dispatcher/socket_channel.cc:34-110 | from a fresh connection, the session has always seen what the peer sent first |
| SocketWire.EndOfStreamForgesMessage | fastnet/source/dispatcher/socket_channel.cc:92-95 | a header read that completes with no bytes and no error delivers an empty message nobody sent |
| SocketWire.EmptyBodyLosesItsId | fastnet/source/dispatcher/socket_channel.cc:92-95 | for every id, a run in which an empty body sent with it arrives with id 0 |
| SocketWire.FailEndsReading | fastnet/source/dispatcher/socket_channel.cc:72-76 | after an error completion nothing is read or delivered in any continuation |
| SocketWire.FailedExactly | fastnet/source/dispatcher/socket_channel.cc:66-106 | the session is told of an error if and only if a read has completed with one |
| SocketWire.ShortHeaderUnnoticedExactly | fastnet/source/dispatcher/socket_channel.cc:77-95 | a short header read goes unnoticed if and only if the bytes of the length that arrived are all zero; otherwise it ends the reading |
| SocketWire.ReadingGoesOnExactly | fastnet/source/dispatcher/socket_channel.cc:66-110 | over whole runs without the unnoticed completions, reading goes on if and only if every read was served in full |
| SocketWire.OverlongHeaderEndsReading | fastnet/source/dispatcher/socket_channel.cc:78-82 | a header whose frame length does not fit in 32 bits ends the reading, whatever the peer sends |
| SocketWire.CompleteDelivery | fastnet/source/dispatcher/socket_channel.cc:46-110 | if no transfer fails, moving bytes ends, and only with everything sent delivered and the reader at a header |
| PipeChannel.Channel.HandleReadHeader | fastnet/source/dispatcher/pipe_channel.cc:79-94 | the handler is the chain's header step on the shared field and keeps the pipe in step, for any announced length |
| PipeChannel.Channel.HandleReadBody | fastnet/source/dispatcher/pipe_channel.cc:96-112 | the handler is the chain's body step and keeps the pipe in step if and only if bytes came or none were announced; pipe_session leaves its buffer if and only if the message handed over does not stay inside |
| PipeWire.StepKeepsSyncExactly | fastnet/source/dispatcher/pipe_channel.cc:54-112 | with one chain, a step keeps the pipe in step if and only if it is not an empty, error-free completion of a non-empty body |
| PipeWire.SyncedExactly | fastnet/source/dispatcher/pipe_channel.cc:54-112 | over whole runs of one chain: every state is in step if and only if no such completion happens |
| PipeWire.EmptyReadForgesZeros | fastnet/source/dispatcher/pipe_channel.cc:102-106 | for every frame with a body, a run in which the empty completion hands over as many zeros in its place |
| PipeWire.FailEndsChain | fastnet/source/dispatcher/pipe_channel.cc:74-78 | after an error completion the chain takes no header and no body in any continuation, and a lone chain delivers nothing more |
| PipeWire.FailedExactly | fastnet/source/dispatcher/pipe_channel.cc:69-106 | the session is told of an error if and only if a read has completed with one |
| PipeWire.ReadingGoesOnExactly | fastnet/source/dispatcher/pipe_channel.cc:69-112 | over whole runs of one chain without empty completions, the chain goes on if and only if every read it handled was served in full |
| PipeWire.BadLengthEndsChain | fastnet/source/dispatcher/pipe_channel.cc:82-83 | a length the message cannot allocate ends the chain, whatever the peer sends |
| PipeWire.PipeFramingSafety | fastnet/source/dispatcher/pipe_channel.cc:61-94 | header reads start on frame boundaries, the header handled is the next undelivered frame's own, and delivered is a prefix of sent, ids included |
| PipeWire.TwoChainsLoseAFrame | fastnet/include/pipe_channel.h:45 | two chains on one channel overwrite each other's header: of two frames one is delivered twice and one never |
| PipeWire.PipeCompleteDelivery | fastnet/source/dispatcher/pipe_channel.cc:54-127 | if nothing fails, moving ends, and only with every frame delivered with its id, for every length 0 to 2^31-9 |
| PipeChannel.Channel.FillHeaderField | fastnet/source/dispatcher/pipe_channel.cc:61-67 | the kernel's completion of the header read moves the next bytes of the pipe into the one header field: the wire's step, which keeps the pipe in step |
| PipeChannel.Channel.FailRead | fastnet/source/dispatcher/pipe_channel.cc:74-78 | an error completion ends the chain and delivers nothing; it is the wire's failing step, which FailEndsChain is about |
| EchoModel.OneReadChain | fastnet/source/iocp_server/session.cc:26-72 | for any number of workers, a session never has two read chains, and has one if and only if no read has failed |
| EchoModel.FailureEndsReading | fastnet/source/iocp_server/session.cc:58-62 | once a read has failed the session takes no message any more and only writes the echoes it owes |
| EchoModel.ReadsCanFail | fastnet/source/iocp_server/session.cc:58-62 | runs in which a pending read fails, and one that a handler is arming |
| EchoModel.EchoOrderExactly | fastnet/source/iocp_server/session.cc:56-72 | with one worker, failing reads included, echoes keep the client's order if and only if no read delivers its message inline |
| EchoModel.EchoesArePrefix | fastnet/source/iocp_server/session.cc:65-71 | without inline deliveries the payloads echoed are always a prefix of those received |
| EchoModel.InlineReadReorders | fastnet/source/iocp_server/session.cc:69-70 | a run with one worker echoes two messages in reverse |
| EchoModel.OrderByThreadCount | fastnet/source/iocp_server/session.cc:69-70 | every run without inline deliveries echoes in order if and only if the dispatcher has at most one worker |
| EchoModel.WorkersReorder | fastnet/source/iocp_server/session.cc:69-70 | for any two or more workers, a run that echoes two messages in reverse without inline deliveries |
| Session.EchoSession.EnterHandleRead | fastnet/source/iocp_server/session.cc:56-68 | an idle worker takes the next message: the model's dispatch step, one chain at most, and the buffer is left if and only if the message does not stay inside |
| Session.EchoSession.EnterWithError | fastnet/source/iocp_server/session.cc:58-62 | an error completion ends the only chain and arms nothing |
| Session.EchoSession.AsyncRead | fastnet/source/iocp_server/session.cc:26-37 | arming the next read, pending or delivered inline with its message, is the model's step and keeps one chain at most |
| Session.EchoSession.AsyncWrite | fastnet/source/iocp_server/session.cc:38-48 | the bytes written are the encoding of the very message the activation was given, with id 0; the activation ends |
| Session.EchoSession.Reply | fastnet/source/iocp_server/session.cc:66-70 | while no buffer was left, the message made of sz_buf and the message length is the message received, with id 0 |
| EchoRoundTrip.ClientReceivesItsOwnPrefix | fastnet/source/iocp_server/session.cc:56-72 | over the runs of client, session and both streams as one system, one worker: what the client receives is a prefix of what it sent, and no buffer is left if all bodies sent stay inside |
| EchoReorder.InlineDeliverySwapsEchoes | fastnet/source/iocp_server/session.cc:69-70 | for any two frames the session can take, a run with one worker and no error that echoes the second first |
| EchoRoundTrip.ErrorsEndReading | fastnet/source/iocp_server/session.cc:58-62 | after an error on either way, whoever was reading takes nothing more in any continuation |
| EchoSystem.StepKeepsTied | fastnet/source/iocp_server/session.cc:56-72 | each step keeps messages received, activations, frames written and the state of the buffers in agreement |
| EchoSystem.SessionEchoesWhatItGets | fastnet/source/iocp_server/session.cc:56-72 | over all runs, any number of workers: each frame written is the body of the message echoed; the buffer was left if and only if some message does not stay inside; until then no due echo is held up |
| EchoRoundTrip.UnsafeFrameOverruns | fastnet/source/iocp_server/session.cc:66-67 | for every frame that does not stay inside, a run in which it is sent, read like any other and leaves the buffer |
| EchoRoundTrip.OverrunExactly | fastnet/source/iocp_server/session.cc:66-68 | a client that sends one frame can make the session leave its buffer if and only if the body has more than 101 bytes, or 101 and no zero |
| EchoCompletion.EveryEchoGetsHome | fastnet/source/iocp_server/session.cc:56-72 | if nothing fails and nothing is delivered inline, the connection makes a bounded number of moves and stops moving only when the client has the body of every frame it sent |
| EchoCompletion.RestMeansReturned | fastnet/source/iocp_server/session.cc:56-72 | a working connection that has not returned everything can move |
| DispatcherModel.StepConserves | fastnet/source/dispatcher/iocp_impl.cc:7-103 | callback by callback, a step hands on the ownership it takes, and each handler begun is running or freed |
| DispatcherModel.StepKeepsLinearExactly | fastnet/source/dispatcher/iocp_impl.cc:75-103 | a step keeps ownership linear if and only if it is not a failed wait after a batch or an immediate success that still queues a packet |
| DispatcherModel.LinearExactly | fastnet/source/dispatcher/iocp_impl.cc:75-103 | over whole runs: ownership is linear in every state if and only if neither hazard happens |
| DispatcherModel.LinearOwnership | fastnet/source/dispatcher/iocp_impl.cc:7-103 | over all runs every callback has one owner, is begun at most once, and once freed is held by nobody |
| DispatcherRunners.RunnerExactly | fastnet/source/dispatcher/pipe_channel.cc:153-178 | over all runs a handler was begun by a worker if and only if its callback went through the port; otherwise its submitter began it |
| DispatcherRunners.ExactlyOnceWhenSettled | fastnet/source/dispatcher/pipe_channel.cc:153-178 | when nothing is on its way, each callback made was run and freed exactly once, by a worker if it went through the port and by its submitter if not, unless the port refused it |
| DispatcherTrace.TraceAccounts | fastnet/source/dispatcher/pipe_channel.cc:153-178 | over every run: the port has received what was posted and completed, in order; leaked is what it refused; pending is what was submitted and has not completed; submitters have run what failed or succeeded at once |
| DispatcherRunners.FailedWaitRunsTwice | fastnet/source/dispatcher/iocp_impl.cc:78-97 | a run in which a failed wait makes the worker begin a freed callback again |
| DispatcherProofs.BoundedLoss | fastnet/source/dispatcher/iocp_impl.cc:77-101 | callbacks abandoned number at most 63 for each worker that threw, at most once a worker, and none without a throw |
| DispatcherProofs.SingleWorkerFifo | fastnet/source/dispatcher/iocp_impl.cc:77-96 | with one worker, begun, taken and queued callbacks are in this order the order of arrival, whatever the batch sizes |
| DispatcherProofs.AbandonedForGood | fastnet/source/dispatcher/iocp_impl.cc:52-70 | a callback the port holds when every worker has left stays there for good, never begun and never freed |
| DispatcherProofs.AlertEndsWorker | fastnet/source/dispatcher/iocp_impl.cc:82-87 | after an APC the worker has left, holds nothing and begins nothing in any continuation |
| DispatcherProofs.StopEndsAll | fastnet/source/dispatcher/iocp_impl.cc:52-61 | from any state in which all workers wait, stop() and one APC each lead to a state in which all have left, with nothing begun and nothing gone from the port |
| DispatcherProofs.WorkersStay | fastnet/source/dispatcher/iocp_impl.cc:79-102 | until stop() is called a worker leaves only with a throwing handler |
| Dispatcher.BatchInvoked | fastnet/source/dispatcher/iocp_impl.cc:88-101 | a batch is begun in order up to and including the first handler that throws |
| Dispatcher.BatchOutcome | fastnet/source/dispatcher/iocp_impl.cc:88-101 | a throw ends the worker and loses the entries behind it; without one the worker waits again |
| Dispatcher.IocpImpl.MakeCallback | fastnet/include/async_callback.h:36-40 | a new callback is owned by its submitter |
| Dispatcher.IocpImpl.Post | fastnet/source/dispatcher/iocp_impl.cc:65-70 | the callback goes to the port, or leaks if the port refuses it |
| Dispatcher.IocpImpl.Submit | fastnet/source/dispatcher/pipe_channel.cc:153-178 | a failing operation is reported and freed here, any other released to the kernel |
| Dispatcher.IocpImpl.Complete | fastnet/include/iocp.h:35-53 | an operation that completes moves its callback from the kernel to the end of the queue |
| Dispatcher.IocpImpl.GetStatus | fastnet/include/iocp.h:48-53 | a worker takes between 1 and 64 entries from the front |
| Dispatcher.IocpImpl.HandleCallback | fastnet/source/dispatcher/iocp_impl.cc:7-11 | the callback is run once and freed, whether its handler returns or throws |
| Dispatcher.IocpImpl.DispatchBatch | fastnet/source/dispatcher/iocp_impl.cc:88-101 | the loop over a batch is the batch function the two lemmas above are about |
| Dispatcher.IocpImpl.LeaveOnAlert | fastnet/source/dispatcher/iocp_impl.cc:82-87 | an APC ends a waiting worker with nothing lost; the step AlertEndsWorker is about |
| Dispatcher.IocpImpl.StopAll | fastnet/source/dispatcher/iocp_impl.cc:52-57 | every worker gets an APC; ownership is unchanged |
| SingletonModel.StepKeepsInv | ControlPPt/source/PPTServer/singleton.h:10-22 | each step keeps the invariant and never changes a published pointer |
| SingletonModel.OneInstance | ControlPPt/source/PPTServer/singleton.h:10-22 | at most one object is ever built, it is built before it is published, and all completed calls return the same non-null pointer |
| SingletonModel.EveryCallCompletes | ControlPPt/source/PPTServer/singleton.h:10-22 | at most seven steps a call, no deadlock, and without a throwing constructor every call returns the published object |
| SingletonModel.ThrewExactly | ControlPPt/source/PPTServer/singleton.h:16-19 | a call ends in an exception if and only if its own constructor threw |
| SingletonModel.PublishedNeedsNoLock | ControlPPt/source/PPTServer/singleton.h:12-21 | once the object is published, a call that begins then never asks for the mutex |
| SingletonModel.Singleton.InstanceStep | ControlPPt/source/PPTServer/singleton.h:10-22 | one action of Instance is the model's step and keeps the invariant |
| CommandText.SplitJoinInverse | ControlPPt/source/PPTServer/utils.h:9 | the pieces contain no delimiter and joined give the text back (Split, utils.cpp:52-66) |
| CommandText.JoinSplitInverse | ControlPPt/source/PPTServer/utils.h:9 | splitting joined delimiter-free pieces gives them back, empty ones included (Split, utils.cpp:52-66) |
| CommandText.SemicolonSeparates | ControlPPt/source/PPTServer/command_parser.cpp:6 | the delimiter is the semicolon: two plain texts with one between them are two pieces |
| CommandText.CutInTwo | ControlPPt/source/PPTServer/command_parser.cpp:3-13 | a cut through a command adds one command; any other cut changes nothing |
| CommandText.ChunkingExactly | ControlPPt/source/PPTServer/command_parser.cpp:3-13 | the commands acted on by chunk are those of the whole stream if and only if every cut is beside a delimiter or at an end |
| CommandText.BufferIsTailExactly | ControlPPt/source/PPTServer/command_parser.cpp:4-11 | if buf_ is the unterminated tail, it is so again after Parse if and only if the received text does not end with the delimiter and contains one or nothing was carried |
| CommandText.TerminatedTextsPileUp | ControlPPt/source/PPTServer/command_parser.cpp:4-11 | texts that each end with the delimiter pile up in buf_ whole |
| CommandText.WithheldIgnoresCuts | ControlPPt/source/PPTServer/command_parser.cpp:3-13 | splitting the buffer and withholding the tail would be right for every cut |
| CommandParser.Split | ControlPPt/source/PPTServer/utils.h:9 | the loop at utils.cpp:52-66 computes the pieces, the last one included when it is empty |
| CommandParser.Parser.Parse | ControlPPt/source/PPTServer/command_parser.cpp:3-27 | new buffer and commands handed over; over all calls the commands acted on are those of the texts received while the control center was there, and those of these texts put together if and only if every cut is clean |

## Left out

- Winsock, named-pipe and completion-port calls: replaced by the environment steps stated above.
- Dialogs, QR drawing, tray user interface, logging, acceptors, clients, timers and project files: no protocol of their own.
- Memory orders weaker than sequential consistency, and the lifetimes of buffers and objects.
- More than one call of `Stop` on a pool, and `Start` called again: the control center does neither while the pool is in use.
- That the dispatcher's `stop()` returns: handlers may keep posting, so a worker may never see its APC. What is left behind once the workers are gone is stated.
- Fair scheduling: ends are stated as bounds on runs and as what holds when no thread can move.
- Repeated calls by one thread of `Singleton::Instance`: each call is its own entry, which covers them.
- A socket handle that is not open, and a channel without a socket: both report an empty code and no bytes, which is the header completion already covered.
- The 100-byte receive buffer and C-string conversion before `Parse` (socket_session.cpp:55-58): Parse is modelled from its argument on.
- Running out of memory: a vector is taken to refuse a size only where the code asks for a negative int.
- The table names utils.h for Split and leaves socket_handle_t.cc out, because utils.cpp and socket_handle_t.cc are not UTF-8 text; the text above gives their lines.
- What a program does after it has left a buffer or written past a vector: the models say that it happened, and stop there.
- A session whose channel pointer is null: the sessions are only made with a channel.
