# AIE bare-metal runtime: a verified model

This project models the parts of the AI Engine bare-metal runtime in which several parties share
state, or in which one side writes a format that another side has to read, and proves what each
of them is for.

- **Run-time parameters** (`RtpProtocol`, `RtpSync`, `RtpAsync`, `RtpTimeout`, `RtpTorn`): `update`
  and `read` on a ping-pong port, as two threads over three hardware locks, a selector word and two buffers.
  Values are copied an element at a time, and any thread may move at any step. Acquires that time
  out are in `RtpTimeout` (the selector) and `RtpTorn` (the buffers).
- **GMIO buffer descriptors** (`Gmio`): the two FIFOs of `gmio_api` together with the hardware's
  own queue, under every sequence of calls and every answer of the driver.
- **Graph life cycle** (`GraphLifecycle`): `run`, `wait` and `end`, timed and not, over the cores of
  a graph, with a driver that may refuse any call.
- **Simulator IPC** (`IpcWire`, `IpcDispatch`, `IpcFraming`, `IpcBreaks`, `IpcClient`,
  `IpcMeaning`, `IpcServer`, `AddressIndex`): the byte streams between client and server, what the
  calls of a client program mean, the shared work queue with its debug clients, the two-sided
  shutdown, and the host-side address index.
- **CDO loader** (`Cdo`, `CdoEffects`): the command stream and its effect on registers.
- **Control code** (`Relocation`, `DynamicNames`, `ColumnImage`): address patches in place, the names
  of the symbols they are for, and the assembly of a column's code from sections.
- **CERT host queue** (`CertPacket`, `CertDecode`, `CertSubmit`, `CertRing`): the bytes of the
  three packet encodings, a consumer that follows the documented format, and the ring they share.
- **Metadata** (`Packing`, `Metadata`): the Python packers against the C++ parsers.

`LittleEndian` holds the integers of all formats, `Options` the type of values that may be missing,
`Search` the search for the last hit.
Concurrent parts are state machines whose runs
are all interleavings; code that updates memory in place is written as methods over arrays and
objects and proved against functions; formats are functions in both directions.

## Where the code does not do what one would expect

Each of these has its own member with the exact condition.

- A synchronous `update` whose acquire times out publishes its value all the same, over one that
  has not been read. An asynchronous one that times out at its buffer overwrites what a read is
  copying, and the read can return a value that was never written.
- A failed non-synchronous GMIO wait recycles descriptors that are still pending, and so does a
  failed poll. `configure` queues the descriptors again each time it is called, also after a call
  that the driver failed; then pending descriptors are handed out.
- A timed `end` may write a core's end word twice.
- A null write whose size is not a multiple of 2^32 leaves client and server waiting for each other
  for ever; a write or read of 2^32 bytes or more goes wrong too. Once the exit command is answered
  the client is disconnected, and every later call returns an error at once.
- The exit hold can be skipped: the answer to an exit command is visible before the hold is armed.
- Entries of indirect packets lose bits 25 to 31 of the address of their exec block, and columns
  above 127. Looking up column 0 in a logging statement adds an empty column 0, so 24 columns
  without column 0 are refused.
- In the older control-code format the addend of a relocation is always a multiple of 2^28; the two
  control-packet patches are not additive, and one takes its upper bits from the wrong word.
- The ELF loader takes a symbol's name by the symbol's position, not by its offset into the string
  table.
- A CDO poll whose time-out is in the last 199 of 32 bits looks only once.
- Triggers of a graph that are given as truth values are all read back as set: they are strings by
  the time they are packed. Triggers given as the numbers 0 and 1 are packed rightly. Iteration
  addresses from 2^31 on are sign-extended.
- The comment at `src/aeg_cdo_parser.h:53-57` says that an address has the base stripped; the code
  also ors the device base in, and only if the address has a bit of the base. The model follows
  the code.

## Model

| member | source | states |
|---|---|---|
| RtpProtocol.WriterKeepsSafe | src/common_layer/aeg_runtime_api.cpp:560-642 | every lock, copy and selector step of `update` keeps the shared invariant: lock owners agree with the threads, no buffer is owned twice, filled buffers hold whole updates |
| RtpProtocol.ReaderKeepsSafe | src/common_layer/aeg_runtime_api.cpp:698-779 | every step of `read` keeps it |
| RtpProtocol.ReaderBufferIntact | src/common_layer/aeg_runtime_api.cpp:727-779 | while a read copies, its buffer still holds the update it committed to, although the selector lock has been given back |
| RtpProtocol.StepKeepsSafe | src/common_layer/aeg_runtime_api.cpp:560-779 | any step of any interleaving, in both modes, keeps the invariant |
| RtpProtocol.RunIsSafe | src/common_layer/aeg_runtime_api.cpp:560-779 | every state of every run satisfies it |
| RtpProtocol.NoSharedBufferNoTornValue | src/common_layer/aeg_runtime_api.cpp:560-779 | writer and reader never own one buffer at a time, and every value returned is one whole published update |
| RtpProtocol.ThreadRunsAreFinite | src/common_layer/aeg_runtime_api.cpp:560-779 | under every schedule the calls in progress take an exact number of steps |
| RtpSync.StepKeepsSync | src/common_layer/aeg_runtime_api.cpp:560-779 | every step of a synchronous port keeps the relation between lock values, buffers and the counts of updates and reads |
| RtpSync.RunIsSync | src/common_layer/aeg_runtime_api.cpp:560-779 | so every run does |
| RtpSync.KthReadReturnsKthUpdate | src/common_layer/aeg_runtime_api.cpp:560-779 | in every interleaving the values read are a prefix of the values written, at most two behind: nothing lost, repeated, reordered or torn |
| RtpSync.OnlyWaitsForThePeer | src/common_layer/aeg_runtime_api.cpp:583-601 | when no thread can move, a read waits for a value never sent or an update for the one unread value |
| RtpSync.StoppedRunDelivered | src/common_layer/aeg_runtime_api.cpp:560-779 | a run that has stopped has delivered all but at most one update |
| RtpAsync.StepKeepsAsync | src/common_layer/aeg_runtime_api.cpp:562-641 | every step of an asynchronous port keeps its invariant |
| RtpAsync.RunIsAsync | src/common_layer/aeg_runtime_api.cpp:560-779 | so every run does |
| RtpAsync.ReadsReturnWholeUpdatesInOrder | src/common_layer/aeg_runtime_api.cpp:583-641 | each read returns one whole update, and later reads never go back |
| RtpAsync.ReadsAreFresh | src/common_layer/aeg_runtime_api.cpp:727-779 | a read that had not looked at the selector when m updates were published returns the m-th or a newer one |
| RtpAsync.SomeThreadMoves | src/common_layer/aeg_runtime_api.cpp:583-641 | after the first update no reachable state with a call in progress is deadlocked |
| RtpAsync.CallsFinish | src/common_layer/aeg_runtime_api.cpp:560-779 | then every call finishes, from every reachable state and under every schedule |
| RtpTimeout.TimeOutStarts | src/common_layer/aeg_runtime_api.cpp:584-587 | an update times out at the selector only while a published value is untaken, and disturbs nothing by it |
| RtpTimeout.StepKeepsOutcome | src/common_layer/aeg_runtime_api.cpp:583-621 | until it gives the selector back, every step of every interleaving keeps it in one of four cases by how far the reader is |
| RtpTimeout.ReleaseInTime | src/common_layer/aeg_runtime_api.cpp:623-629 | given back after the reader did, the port is as if the lock had been held |
| RtpTimeout.TooLateBreaks | src/common_layer/aeg_runtime_api.cpp:727-745 | a reader that has not read the selector word takes the new update for the one before |
| RtpTimeout.CommittedBreaks | src/common_layer/aeg_runtime_api.cpp:751-756 | a reader that gives the selector back after the update hides the new value, and a later update replaces it |
| RtpTimeout.TimedOutUpdateKeptIff | src/common_layer/aeg_runtime_api.cpp:583-642 | for every run with one such time-out, the k-th read takes the k-th update whatever follows, if and only if no value was waiting for a reader still to read the selector word when the update was published, and the reader does not hold the selector when the update gives it back |
| RtpTimeout.FirstOfTwoIsLost | src/common_layer/aeg_runtime_api.cpp:583-642 | two updates and no read: the first read returns the second value, on every port and for every two values |
| RtpTimeout.ReadTimeOutIff | src/common_layer/aeg_runtime_api.cpp:727-737 | a read that times out at the selector takes its own update if and only if an untaken one is published |
| RtpTorn.SyncUpdateFindsBufferFree | src/common_layer/aeg_runtime_api.cpp:596-612 | a synchronous update that has the selector never waits for its buffer |
| RtpTorn.BufferTimeOutIff | src/common_layer/aeg_runtime_api.cpp:596-612 | an asynchronous one does, and so can time out, if and only if a read is copying from it |
| RtpTorn.StepKeepsRace | src/common_layer/aeg_runtime_api.cpp:596-779 | after such a time-out, every step of every interleaving keeps the read's value a mixture of the old and the new one, old up to where the read stood |
| RtpTorn.WholeIff | src/common_layer/aeg_runtime_api.cpp:596-779 | the read returns a whole value whatever the interleaving, until another update is published, if and only if the old and the new value, cut anywhere from where the read stands, agree on one side of the cut |
| RtpTorn.TornRead | src/common_layer/aeg_runtime_api.cpp:596-779 | on every asynchronous port and for every two values that differ on both sides of some cut, a run from the start in which a read returns a value never written |
| RtpTorn.ReadBufferTimeOutIff | src/common_layer/aeg_runtime_api.cpp:739-750 | a synchronous read can time out at its buffer if and only if the update that filled it has not released it |
| RtpTorn.ReadTimeOutStaysWhole | src/common_layer/aeg_runtime_api.cpp:739-779 | such a read still returns, whole, the update it is committed to, whatever follows |
| Gmio.OpRotates | src/common_layer/aeg_runtime_api.cpp:855-959 | every call keeps the two FIFOs a rotation of the channel's descriptors and hands out the next in turn |
| Gmio.RunRotates | src/common_layer/aeg_runtime_api.cpp:855-959 | over every sequence of calls the descriptors handed out are the channel's in endless rotation |
| Gmio.HandsOutIff | src/common_layer/aeg_runtime_api.cpp:865-879 | a call hands out a descriptor if and only if one is available or one of its polls reports fewer pending than the queue holds |
| Gmio.WaitFreesIff | src/common_layer/aeg_runtime_api.cpp:941-956 | a wait frees all descriptors, behind the available ones, if and only if the driver says done or, when it is not synchronous, whatever it says; otherwise none |
| Gmio.DescriptorsAreConserved | src/common_layer/aeg_runtime_api.cpp:826-959 | whatever the driver reports, the FIFOs together hold each descriptor of the channel exactly once |
| Gmio.OwnedAt | src/common_layer/aeg_runtime_api.cpp:826-831 | a channel owns exactly the descriptors from channel*q up to channel*q+q |
| Gmio.ChannelsAreDisjoint | src/common_layer/aeg_runtime_api.cpp:826-831 | distinct channels of one size share none |
| Gmio.PollSafeIff | src/common_layer/aeg_runtime_api.cpp:865-879 | a poll keeps the hardware's descriptors enqueued if and only if the driver reports no fewer than are pending |
| Gmio.HandOutSafeIff | src/common_layer/aeg_runtime_api.cpp:881-908 | a hand-out does if and only if the push succeeds or nothing is pending |
| Gmio.WaitSafeIff | src/common_layer/aeg_runtime_api.cpp:941-956 | a wait does if and only if it is synchronous, its query succeeds or the channel has drained |
| Gmio.FailedWaitReusesPending | src/common_layer/aeg_runtime_api.cpp:941-956 | after a failed non-synchronous wait a pending descriptor is handed out again |
| Gmio.ReconfigureReusesPending | src/common_layer/aeg_runtime_api.cpp:826-831 | for every channel and queue size, after two calls of `configure` the hardware's queue is full of descriptors of which the next handed out is one |
| Gmio.EventsHold | src/common_layer/aeg_runtime_api.cpp:810-850 | the FIFOs always hold as many copies of the descriptors as there were calls of `configure` past its type check |
| Gmio.ReuseIffConfiguredAgain | src/common_layer/aeg_runtime_api.cpp:810-959 | after every history with a truthful driver, a pending descriptor can still be handed out if and only if `configure` got past its type check more than once, accepted by the driver or not |
| Gmio.PendingNeverReused | src/common_layer/aeg_runtime_api.cpp:855-959 | over every sequence of calls with a truthful driver no pending descriptor is handed out |
| Gmio.GmioApi.constructor | src/common_layer/aeg_runtime_api.cpp:801-808 | a new object is unconfigured with empty FIFOs |
| Gmio.GmioApi.Configure | src/common_layer/aeg_runtime_api.cpp:810-850 | which error for which configuration, and that the descriptors are queued even when the driver fails |
| Gmio.GmioApi.RecycleOldest | src/common_layer/aeg_runtime_api.cpp:870-877 | the loop moves exactly the n oldest enqueued descriptors back, in order |
| Gmio.GmioApi.EnqueueBD | src/common_layer/aeg_runtime_api.cpp:855-926 | the object follows the specified poll and hand-out, and reports an error if a poll, setting up or the push failed |
| Gmio.GmioApi.Wait | src/common_layer/aeg_runtime_api.cpp:928-959 | the object follows the specified wait, with its error cases |
| GraphLifecycle.RunQuietIff | src/common_layer/aeg_runtime_api.cpp:143-204 | exactly when a run, with any driver, keeps "not running implies every waited-for core disabled" |
| GraphLifecycle.EndQuietIff | src/common_layer/aeg_runtime_api.cpp:321-356 | exactly when an end does |
| GraphLifecycle.WaitStaysQuiet | src/common_layer/aeg_runtime_api.cpp:229-255 | a wait always does |
| GraphLifecycle.RunLeaves | src/common_layer/aeg_runtime_api.cpp:143-204 | with any driver, which cores a run leaves enabled, whether the graph runs, and when the end words count anew |
| GraphLifecycle.WaitLeaves | src/common_layer/aeg_runtime_api.cpp:229-255 | with any driver, a wait leaves triggered cores alone, disables every other one whose disable works, and stops the graph exactly if all of those worked |
| GraphLifecycle.TimedLeaves | src/common_layer/aeg_runtime_api.cpp:257-382 | with any driver, what the timed wait and the timed end leave of every core and end word, triggered or not |
| GraphLifecycle.LifeCycle | src/common_layer/aeg_runtime_api.cpp:143-356 | for every graph on a driver that refuses nothing, `run` and `end` leave each waited-for core disabled with exactly one end word and each triggered one enabled with none; with a `wait` in between there is none |
| GraphLifecycle.EndWordIffRunning | src/common_layer/aeg_runtime_api.cpp:321-356 | the end word reaches exactly the non-triggered cores of a running graph, never after a wait |
| GraphLifecycle.EndAgainChangesNothing | src/common_layer/aeg_runtime_api.cpp:321-356 | `end` after `end` or after `wait` changes nothing |
| GraphLifecycle.TimedStaysQuiet | src/common_layer/aeg_runtime_api.cpp:257-319 | a timed wait and a timed end always do |
| GraphLifecycle.EndedOnceIff | src/common_layer/aeg_runtime_api.cpp:143-382 | over every sequence of calls, timed or not, and every driver, no core gets a second end word before the next successful run if and only if each timed end gives up before writing or writes only to cores that have had none |
| GraphLifecycle.NeverEndedTwice | src/common_layer/aeg_runtime_api.cpp:143-356 | so it never happens without timed ends |
| GraphLifecycle.StoppedMeansDisabledIff | src/common_layer/aeg_runtime_api.cpp:143-382 | over every sequence of calls, timed or not, and with every driver, "not running" means "every waited-for core disabled" throughout if and only if each call meets its condition in the state it finds |
| GraphLifecycle.StoppedMeansDisabled | src/common_layer/aeg_runtime_api.cpp:143-356 | a driver that refuses nothing meets them all |
| GraphLifecycle.TimedEndOnceIff | src/common_layer/aeg_runtime_api.cpp:358-382 | exactly when the timed end keeps the single end word |
| GraphLifecycle.TimedEndRepeats | src/common_layer/aeg_runtime_api.cpp:358-382 | two timed ends in a row do not |
| GraphLifecycle.GraphApi.Configure | src/common_layer/aeg_runtime_api.cpp:117-141 | accepted exactly if the per-core vectors have one length |
| GraphLifecycle.GraphApi.Run | src/common_layer/aeg_runtime_api.cpp:143-204 | the loop over the cores has the specified effect and error |
| GraphLifecycle.GraphApi.Wait | src/common_layer/aeg_runtime_api.cpp:229-255 | the loop over the cores has the specified effect and error |
| GraphLifecycle.GraphApi.End | src/common_layer/aeg_runtime_api.cpp:321-356 | wait and end sequence have the specified effect and error |
| IpcWire.RequestRoundTrip | src/ipc/ps_ipc_protocol.h:34-57 | a request decodes to itself from its packed bytes |
| IpcWire.ResponseRoundTrip | src/ipc/ps_ipc_protocol.h:34-57 | a response does |
| IpcWire.RequestLayout | src/ipc/ps_ipc_protocol.h:44-51 | at which bytes the fields of a request are |
| IpcWire.ResponseLayout | src/ipc/ps_ipc_protocol.h:53-57 | at which bytes those of a response are |
| IpcWire.SendAll | src/ipc/ps_ipc_protocol.h:70-86 | whatever the splits and interruptions, a prefix is sent, and all of it exactly on success |
| IpcWire.RecvAll | src/ipc/ps_ipc_protocol.h:88-104 | the next n bytes are taken, exactly on success, and the rest of the stream is left |
| IpcDispatch.ServerAnswersReads | src/ipc/aeg_ipc_server.cpp:195-318 | over any device, a memory read is answered with status OK and as many bytes as were asked for |
| IpcFraming.FramedIff | src/ipc/aeg_ps_ipc_backend.cpp:126-204 | exactly which calls announce the payload they send: writes, reads and graph names below 2^32 bytes, null writes of size 0, and requests alone unless one of the three commands with bytes announces some |
| IpcFraming.StepKeepsInStep | src/ipc/ps_ipc_protocol.h:70-123 | every byte moved and every message handled keeps client, streams and server in step |
| IpcFraming.CloseKeepsPhase | src/ipc/aeg_ps_ipc_backend.cpp:105-124 | the exit call, once the server has closed, leaves the client disconnected with every command run and nothing on the streams |
| IpcFraming.RefuseKeepsPhase | src/ipc/aeg_ps_ipc_backend.cpp:126-140 | a call of a disconnected client gets the connection error, and streams, server and device stay as they are |
| IpcFraming.RunInStep | src/ipc/aeg_ipc_server.cpp:441-498 | so every run does |
| IpcFraming.FramesStayAligned | src/ipc/aeg_ps_ipc_backend.cpp:105-204 | for every well-formed session, every cut and every interleaving, the k-th result answers the k-th request up to and including the exit command and is the connection error after it; the device has seen the commands up to the exit command and no other; both streams are empty between calls and after the exit |
| IpcFraming.SomeoneCanMove | src/ipc/aeg_ipc_server.cpp:441-498 | no such session deadlocks before its last result, refused calls included |
| IpcFraming.ShortPayloadStalls | src/ipc/ps_ipc_protocol.h:106-123 | a server short of payload and a waiting client never move again |
| IpcBreaks.CallReturns | src/ipc/aeg_ps_ipc_backend.cpp:126-204 | a call that sends enough and reads no more than is sent returns, and leaves on the streams exactly what was too much |
| IpcBreaks.PrefixRuns | src/ipc/aeg_ipc_server.cpp:441-498 | the well-formed calls before a bad one can be carried through |
| IpcBreaks.LongReadBreaks | src/ipc/aeg_ps_ipc_backend.cpp:180-204 | a read that wants more than its 32-bit size waits for ever |
| IpcBreaks.IllFormedBreaks | src/ipc/ps_ipc_protocol.h:70-123 | every session of client calls that is not well formed has a run that gets stuck before its last result or is idle with bytes on a stream |
| IpcBreaks.WellFormedIff | src/ipc/ps_ipc_protocol.h:70-123 | over any device, a session of client calls is well formed if and only if no run of it does |
| IpcBreaks.NullWriteStalls | src/ipc/ps_ipc_protocol.h:106-123 | a null write that announces bytes, after any well-formed calls, stops both sides without its result |
| IpcClient.OnTheWire | src/ipc/ps_ipc_protocol.h:12-32 | the command number and the payload of each of the client's calls |
| IpcClient.FitsIff | src/ipc/aeg_ps_ipc_backend.cpp:165-289 | each of the client's calls is framed if and only if its size fits |
| IpcClient.SessionIff | src/ipc/aeg_ps_ipc_backend.cpp:105-289 | over any device, a session of client calls never gets stuck and leaves nothing over, in any run, if and only if the sizes of the calls up to the first disconnect fit |
| IpcClient.WriteThenRead | src/ipc/aeg_ipc_server.cpp:203-228 | on every device for which it holds of the device itself, a register written through the server is read back, in each of the two register spaces, and the other space answers as before |
| IpcClient.StoreThenLoad | src/ipc/aeg_ipc_server.cpp:230-250 | memory written through the server is read back byte for byte |
| IpcClient.ReachesItsOwn | src/ipc/aeg_ipc_server.cpp:252-302 | after any calls: allocation answers the device's address, or the IO error exactly for size or address 0; free, start, graph init with its whole name, and exit with its code reach their own device call |
| IpcClient.UnknownRefused | src/ipc/aeg_ipc_server.cpp:304-311 | a command that is none of the protocol's gets the protocol error, a ping is answered, and the device is left alone |
| IpcClient.RunAnswers | src/ipc/aeg_ps_ipc_backend.cpp:105-289 | for every session whose sizes fit, every cut and every interleaving, each call returns what the server is to answer it and is refused after the disconnect, and the server has been handed exactly the client's commands and payloads |
| IpcClient.GraphNameArrives | src/ipc/aeg_ps_ipc_backend.cpp:286-290 | in every such run the device is started with exactly the bytes of the graph's name, and the caller is told whether that worked |
| IpcMeaning.CallsChange | src/ipc/aeg_ipc_server.cpp:203-250 | on every such device, after any calls each register of both spaces and each byte of memory is as it was written last |
| IpcMeaning.ReadsSeeLastWrites | src/ipc/aeg_ipc_server.cpp:203-250 | every read of every session is answered with what was written last |
| IpcMeaning.RunReadsLastWrites | src/ipc/aeg_ps_ipc_backend.cpp:172-262 | end to end: in every run of every session whose sizes fit, each read made while connected returns what the calls before it wrote last |
| IpcServer.PureIff | src/ipc/aeg_ipc_server.cpp:195-318 | dispatching reads leaves the device alone exactly if its two register reads do |
| IpcServer.RunKeepsAlone | src/ipc/aeg_ipc_server.cpp:180-193 | in every run the queue is a FIFO with at most one item of the main client, and the device is where that client's commands have brought it |
| IpcServer.DebugClientsDoNotInterfere | src/ipc/aeg_ipc_server.cpp:320-348 | in every interleaving with any number of debug clients, replies and device are those of the main client alone |
| IpcServer.DebugReadsAreSnapshots | src/ipc/aeg_ipc_server.cpp:320-348 | in every interleaving each read of a debug client is answered as if it had been made between two commands of the main client running alone |
| IpcServer.RunKeepsShutdown | src/ipc/aeg_ipc_server.cpp:484-516 | in every run, over every device, the flags of the shutdown agree with where the threads are |
| IpcServer.NothingOutstandingAtExit | src/ipc/aeg_ipc_server.cpp:584-634 | when `ps_main` has returned nothing of the main client is undone and a configured hold is over |
| IpcServer.DebugClientsReleased | src/ipc/aeg_ipc_server.cpp:333-340 | when the server is done every waiting debug client can go on |
| IpcServer.DeadlineIsFixed | src/ipc/aeg_ipc_server.cpp:163-178 | an armed deadline never changes |
| IpcServer.HoldLasts | src/ipc/aeg_ipc_server.cpp:163-178 | an armed hold ends as long after it was armed as configured, and neither is the debug socket closed before nor does `ps_main` return |
| IpcServer.HoldSkippedIffInGap | src/ipc/aeg_ipc_server.cpp:484-516 | the debug socket is closed without a hold if and only if `ps_main` is between answering an exit command and acting on it |
| IpcServer.GapCanAlwaysBeUsed | src/ipc/aeg_ipc_server.cpp:484-516 | from every reachable state in that gap in which the main thread still waits, two of its steps skip the hold |
| IpcServer.HoldCanBeSkipped | src/ipc/aeg_ipc_server.cpp:584-617 | and the gap is reached, whatever hold is configured |
| AddressIndex.OnlyTheLast | src/ipc/aeg_ps_ipc_backend.cpp:236-246 | only the entry before the upper bound can contain an address |
| AddressIndex.InRegion | src/ipc/aeg_ps_ipc_backend.cpp:236-246 | every address of a live block translates to the same offset of its device block |
| AddressIndex.ZeroIff | src/ipc/aeg_ps_ipc_backend.cpp:236-246 | the result is 0 if and only if no live block has the address |
| AddressIndex.TranslationIsInjective | src/ipc/aeg_ps_ipc_backend.cpp:236-246 | two addresses never translate to one |
| AddressIndex.TranslationKeepsOffsets | src/ipc/aeg_ps_ipc_backend.cpp:236-246 | distances within a block are kept |
| AddressIndex.Index.Alloc | src/ipc/aeg_ps_ipc_backend.cpp:214-225 | live device blocks are exactly those in the map, also when the host allocation fails |
| AddressIndex.Index.Free | src/ipc/aeg_ps_ipc_backend.cpp:227-234 | exactly the entry of the pointer and its device block go |
| AddressIndex.Index.DevAddr | src/ipc/aeg_ps_ipc_backend.cpp:236-246 | upper bound and step back give what looking at every live block gives |
| Cdo.MaskBitsSplit | src/aeg_cdo.h:99-108 | a masked write takes the bits under the mask and keeps all others |
| Cdo.MaskPoll | src/aeg_cdo.h:199-223 | a poll succeeds if and only if one of its reads, the one after the loop included, shows the value |
| Cdo.BlockWrite | src/aeg_cdo.h:175-185 | the loop writes the words of a block in order |
| Cdo.BlockLands | src/aeg_cdo.h:175-185 | for every block, a register holds the last word that goes to it, with offsets in 32 bits and addresses in 64, and keeps its value if none does |
| Cdo.BlockLandsInOrder | src/aeg_cdo.h:175-185 | a block that does not wrap lands word by word at four-byte steps and touches nothing else |
| Cdo.RegOffIff | src/aeg_aiebaremetal.cc:1607-1621 | for every address and both bases, the offset is the one described, base stripped, if and only if the address has no bit of the base or the device's base adds none |
| Cdo.RegOffAddsBase | src/aeg_aiebaremetal.cc:1607-1621 | an input at which it is not |
| Cdo.CheckHeader | src/aeg_aiebaremetal.cc:1640-1680 | the word loop accepts exactly the headers with the right marks, size and checksum |
| Cdo.MaskWriteReg | src/aeg_cdo.h:99-108 | a masked write changes the register it names as specified and no other |
| Cdo.ApplyOne | src/aeg_aiebaremetal.cc:1700-1800 | each command has its specified effect, which `CdoEffects.LoadOne` states as seen in the registers |
| Cdo.RunCommands | src/aeg_aiebaremetal.cc:1689-1810 | the loop interprets the stream, and its remaining words strictly decrease |
| Cdo.ParseAndApply | src/aeg_aiebaremetal.cc:1640-1810 | header check and loop together are the specified load |
| Cdo.ParseEncoded | src/aeg_aiebaremetal.cc:1556-1605 | a command is found where it was put, in short and in long form, whatever follows |
| Cdo.InterpretEncoded | src/aeg_aiebaremetal.cc:1689-1810 | interpreting an encoded list is applying the list |
| Cdo.LoadEncoded | src/aeg_aiebaremetal.cc:1640-1810 | every list of commands survives the blob: it is accepted and has exactly the list's effect, up to the first poll that fails |
| Cdo.OnlyWholeCommands | src/aeg_aiebaremetal.cc:1689-1810 | for every stream, exactly the commands before the failing one took full effect |
| Cdo.LoadAppliesAPrefix | src/aeg_aiebaremetal.cc:1640-1810 | the same of the loader, for every blob, with the header that is refused |
| Cdo.FailureChangesNothing | src/aeg_aiebaremetal.cc:1700-1800 | a command that fails has changed nothing |
| CdoEffects.HeaderIff | src/aeg_aiebaremetal.cc:1640-1680 | a header is accepted if and only if it is not all there is, spells "CDO", its five words add up to all ones and the blob is as long as it says |
| CdoEffects.ShortForms | src/aeg_aiebaremetal.cc:1556-1605 | the words of every command in its short form |
| CdoEffects.LongBlock | src/aeg_aiebaremetal.cc:1556-1605 | those of a block in its long form |
| CdoEffects.PollCountIff | src/aeg_cdo.h:199-223 | a poll looks once for every 200 microseconds or part of them if and only if its time-out is not in the last 199 of 32 bits |
| CdoEffects.LoadOne | src/aeg_aiebaremetal.cc:1700-1800 | after loading a blob of one command, in either form: a write has set its register and no other, a masked write exactly the bits under the mask, a block its words, a poll has looked and counted, a no-op has done nothing |
| CdoEffects.LastWriterDecides | src/aeg_aiebaremetal.cc:1689-1810 | after every list that succeeds, a register is as the last command that writes to it left it, of what that command found there |
| CdoEffects.LoadedRegisters | src/aeg_aiebaremetal.cc:1640-1810 | the same of the registers after loading the blob of any list |
| Relocation.PatchAdds | src/cert_elf_loader.cc:282-304 | each of the three patches adds to the scattered address modulo 2^32 or 2^57 |
| Relocation.PatchKeepsTheRest | src/cert_elf_loader.cc:282-304 | and keeps every other bit and word |
| Relocation.PatchesCompose | src/cert_elf_loader.cc:282-304 | two patches on one descriptor are one by the sum |
| Relocation.PatchesCommute | src/cert_elf_loader.cc:282-304 | patches of one kind on one descriptor, or with no common word, commute |
| Relocation.AnyOrderSameImage | src/cert_elf_loader.cc:176-257 | any permutation of such relocation entries gives the same image |
| Relocation.EntryDoes | src/cert_elf_loader.cc:176-257 | an entry adds the address of its symbol and its signed addend to the descriptor 16 bytes past its offset, in the way of its kind, and does nothing if symbol or kind is not known |
| Relocation.EveryEntryAdds | src/cert_elf_loader.cc:176-257 | after any list, a descriptor that the entries add to or stay clear of holds what it held and all that they add |
| Relocation.OldFormatDropsAddend | src/cert_elf_loader.cc:217-221 | in the older format every applied addend is a multiple of 2^28, and one below 2^32 is lost |
| Relocation.CtrlPatchIff | src/cert_elf_loader.cc:306-319 | exactly when the first control-packet patch writes the sum and keeps the upper half-word |
| Relocation.CtrlPatchesDoNotCompose | src/cert_elf_loader.cc:306-319 | on every aligned address two such patches by 2 differ from one by 4 |
| Relocation.CtrlPatch4Iff | src/cert_elf_loader.cc:321-327 | the second one adds, and keeps the other bits if and only if words 0 and 1 agree on them |
| Relocation.PatchScalar32 | src/cert_elf_loader.cc:282-286 | the in-place patch is the specified one |
| Relocation.PatchAie4 | src/cert_elf_loader.cc:288-295 | the in-place patch is the specified one |
| Relocation.PatchAie2ps | src/cert_elf_loader.cc:297-304 | the in-place patch is the specified one |
| Relocation.PatchCtrl | src/cert_elf_loader.cc:306-319 | the in-place patch is the specified one |
| Relocation.PatchCtrl4 | src/cert_elf_loader.cc:321-327 | the in-place patch is the specified one |
| DynamicNames.ReadStrings | src/cert_elf_loader.cc:157-169 | the loop over the string table finds its strings, in order |
| DynamicNames.KthString | src/cert_elf_loader.cc:157-169 | the string at position k is the one that begins after the k-th zero character |
| DynamicNames.OwnNameIff | src/cert_elf_loader.cc:190-194 | for every table without repetitions and every symbol whose name begins one of its strings, the symbol is looked up under its own name if and only if that string stands where the symbol stands |
| DynamicNames.OwnNamesIff | src/cert_elf_loader.cc:190-194 | all symbols are if and only if their names are the first strings of the table, in order |
| DynamicNames.SwappedNames | src/cert_elf_loader.cc:190-194 | two names the other way round are taken for each other |
| Relocation.Relocate | src/cert_elf_loader.cc:176-257 | the loop over the entries applies them in order, with every skipped case |
| ColumnImage.NameRoundTrip | src/cert_elf_loader.cc:352-435 | every column and page of 32 bits is recovered from its section name |
| ColumnImage.SectionNames | src/cert_elf_loader.cc:352-435 | the names of text, data and pad sections |
| ColumnImage.CollectSections | src/cert_elf_loader.cc:110-122 | the loop over the sections collects columns and pages as specified |
| ColumnImage.CollectedColumn | src/cert_elf_loader.cc:110-122 | which columns there are, and that their pads are in section order |
| ColumnImage.CollectedPage | src/cert_elf_loader.cc:110-122 | which pages there are, each with the last text and data given for it |
| ColumnImage.AnyOrderSameColumns | src/cert_elf_loader.cc:110-122 | distinct text and data sections may come in any order |
| ColumnImage.AnyOrderSameCode | src/cert_elf_loader.cc:259-273 | then the code of each column is the same, too |
| ColumnImage.OneOrder | src/cert_elf_loader.cc:259-273 | a set of pages has only one ascending order |
| ColumnImage.CodeSize | src/cert_elf_loader.cc:259-273 | the length of the code is the sum of its parts |
| ColumnImage.CodeLaidOut | src/cert_elf_loader.cc:259-273 | each page stands after the pages before it, its text in front of its data, and after all the pages each pad after the pads before it |
| ColumnImage.AppendBytes | src/cert_elf_loader.cc:20-31 | the byte loop appends |
| ColumnImage.Assemble | src/cert_elf_loader.cc:259-273 | the loops give code that is laid out so |
| CertPacket.JoinAt | src/cert_host.cc:387-427 | pieces laid end to end are each found where the ones before them end |
| CertPacket.Pieces | src/cert_host.cc:387-427 | the running addresses of the column loop are those of the specified entries, exec blocks and code regions |
| CertPacket.FillDirect | src/cert_host.cc:284-328 | the slot and the code buffer are exactly the specified bytes |
| CertPacket.FillOneLevel | src/cert_host.cc:342-427 | slot, exec blocks and code tile their buffers with no gap or overlap; the table fits the slot |
| CertPacket.FillTwoLevel | src/cert_host.cc:443-549 | header, table and exec blocks tile exactly 8+40n bytes, with only one byte left from before |
| CertDecode.HeaderRead | src/include/host_queue.h:95-125 | a common header is read back |
| CertDecode.ExecRead | src/include/host_queue.h:56-65 | an exec buffer is read back |
| CertDecode.EntryIff | src/include/host_queue.h:121-125 | an entry leads to its column and block if and only if column and address fit its masks |
| CertDecode.FirstEntryIff | src/cert_host.cc:489-493 | the entry to the second level does if and only if the address is below 2^57 |
| CertDecode.DirectRead | src/include/host_queue.h:131-140 | the direct encoding is read back |
| CertDecode.OneLevelRead | src/include/host_queue.h:162-192 | the one-level encoding is read back |
| CertDecode.TwoLevelRead | src/include/host_queue.h:194-236 | the two-level encoding is read back |
| CertSubmit.CountedIff | src/cert_host.cc:276-283 | the columns counted are the submitted ones if and only if there is a column 0 or none at all |
| CertSubmit.TwentyFourIff | src/cert_host.cc:276-283 | 24 columns are accepted if and only if column 0 is one of them |
| CertSubmit.Build | src/cert_host.cc:276-549 | exactly which submissions are built, in which encoding, and that a failed one leaves the slot alone |
| CertSubmit.PacketRoundTrip | src/cert_host.cc:284-549 | for every accepted map, in all three encodings, the slot names the completion signal and reads as one job for each column, in order, whose address holds that column's code and whose arguments are at the given address, eight bytes for each buffer |
| CertSubmit.SlotShape | src/include/host_queue.h:127-236 | the header of the slot as documented: direct for one column, a table in the slot for two to six, an entry to a table for seven to 24 |
| CertSubmit.NoColumnIsLost | src/cert_host.cc:276-283 | every submitted column is among them |
| CertSubmit.TableIff | src/cert_host.cc:398-400 | a table leads to all its exec blocks if and only if every entry fits |
| CertSubmit.MaskedAddressIsLost | src/cert_host.cc:398-400 | a buffer at 2^25 is one that does not |
| CertSubmit.ArgsIff | src/cert_host.cc:324-328 | in every packet built, the exec buffers give the length of the arguments rightly exactly for fewer than 8192 buffers |
| CertRing.HostKeepsInv | src/cert_host.cc:261-272 | every step of a submission keeps the ring invariant |
| CertRing.ConsumerKeepsInv | src/cert_host.cc:329-340 | every step of the consumer keeps it |
| CertRing.RingIsSafe | src/cert_host.cc:428-562 | after any run the index counts published packets modulo 32, the consumer has taken only whole packets in order, at most one is unfinished, and each submission returned the status of its own packet |
| CertRing.WritesOnlyWhenDrained | src/cert_host.cc:579-607 | no slot is overwritten before the consumer is done with it |
| CertRing.FailureLeavesTheQueue | src/cert_host.cc:363-375 | a failed submission leaves index, slots and history alone |
| CertRing.WaitEnds | src/cert_host.cc:336-340 | a waiting submission returns within three steps of the two sides |
| Packing.NumIff | src/aeg_configure.cc:36-80 | a packed number is read back unchanged if and only if the parser's type holds it |
| Packing.PackFields | script/aiemetacpp.py:278-307 | the loop over the keys packs the fields in order |
| Packing.UnpackVector | src/aeg_configure.cc:82-89 | the loop reads the elements of a vector with the shared cursor |
| Packing.ReadPacked | src/aeg_configure.cc:36-97 | for every pair of matching tables, nested to any depth, reading a packed field gives it as the parser sees it and leaves what follows |
| Packing.ReadPackedAll | src/aeg_configure.cc:263-279 | the same for a record |
| Packing.ReadPackedRecords | src/aeg_configure.cc:346-370 | the same for a counted list of records |
| Packing.CastIff | script/aiemetacpp.py:373-449 | a field, nested records included, is rebuilt if and only if the parser's types hold all its numbers |
| Packing.LossyDecide | src/aeg_configure.cc:506-538 | only the fields whose types may lose something decide whether a record is rebuilt |
| Packing.VectorLayout | script/aiemetacpp.py:226-244 | a packed vector has its length in front and each element at its own place, in two's complement |
| Packing.StringLayout | script/aiemetacpp.py:241-252 | a packed string has its length in front |
| Metadata.LastDuplicateWins | src/aeg_configure.cc:495-501 | a name stands for the last record that goes by it, as a name or as an alias |
| Metadata.FoundByName | src/aeg_configure.cc:193-389 | in the table of every file the parser keeps, a name is found if and only if a record has it in its field "name", and gives the last such record |
| Metadata.RtpFoundByName | src/aeg_configure.cc:495-501 | a run-time parameter is found by its port name and by its alias, if that is not empty |
| Metadata.LoadAll | src/aeg_configure.cc:249-260 | the loop reads records until the cursor is at the size |
| Metadata.FileRoundTrip | src/aeg_configure.cc:185-538 | every file is read to its end into the table of its records, which are unchanged if and only if the parser's types hold them |
| Metadata.GmioIff | src/aeg_configure.cc:263-279 | a GMIO record is rebuilt if and only if its type fits in eight bits |
| Metadata.GmioFile | script/aiemetacpp.py:266-307 | such a file is rebuilt |
| Metadata.PlioExact | src/aeg_configure.cc:298-311 | a PLIO record always is |
| Metadata.PlioFile | script/aiemetacpp.py:318-360 | such a file is rebuilt |
| Metadata.RtpIff | src/aeg_configure.cc:506-538 | a run-time parameter record is if and only if its flags are 0 or 1 and its size, addresses and locks are not negative |
| Metadata.RtpFile | script/aiemetacpp.py:583-623 | such a file is rebuilt, with an entry for each name and each alias |
| Metadata.ExternalFile | script/aiemetacpp.py:438-449 | such a file is rebuilt |
| Metadata.SharedFile | script/aiemetacpp.py:492-507 | such a file is rebuilt |
| Metadata.GraphFile | script/aiemetacpp.py:215-258 | such a file is rebuilt |
| Metadata.ExternalIff | src/aeg_configure.cc:335-373 | an external buffer with its ports and descriptors is if and only if every port's flag is 0 or 1 |
| Metadata.SharedIff | src/aeg_configure.cc:398-484 | a shared buffer is if and only if its flag is 0 or 1 |
| Metadata.GraphIff | src/aeg_configure.cc:199-244 | a graph whose triggers are given as truth values is if and only if its addresses are below 2^31 and all its triggers are set |
| Metadata.DriverRoundTrip | src/aeg_configure.cc:102-142 | driver record and partitions, present or absent, are read back to the end of the file |

## Left out

After `LOCK_TIMEOUT` an acquire gives up and the source goes on without the lock. The first members
below are about runs in which that does not happen; `RtpTimeout` and `RtpTorn` are about those in
which it does.

- RtpProtocol.WriterKeepsSafe: without time-outs.
- RtpProtocol.ReaderKeepsSafe: without time-outs.
- RtpProtocol.StepKeepsSafe: without time-outs.
- RtpProtocol.RunIsSafe: without time-outs.
- RtpProtocol.NoSharedBufferNoTornValue: without time-outs.
- RtpSync.StepKeepsSync: without time-outs.
- RtpSync.RunIsSync: without time-outs.
- RtpSync.KthReadReturnsKthUpdate: without time-outs.
- RtpSync.OnlyWaitsForThePeer: without time-outs.
- RtpSync.StoppedRunDelivered: without time-outs.
- RtpAsync.StepKeepsAsync: without time-outs.
- RtpAsync.RunIsAsync: without time-outs.
- RtpAsync.ReadsReturnWholeUpdatesInOrder: without time-outs.
- RtpAsync.ReadsAreFresh: without time-outs.
- RtpTimeout.TimedOutUpdateKeptIff: one time-out, of a synchronous update; an asynchronous update that times out at the selector is not modelled.
- RtpTimeout.ReadTimeOutIff: when a synchronous read can time out at the selector and which update it then takes, not what any later run does.
- RtpTorn.WholeIff: until another update is published; a later one that writes to the same buffer can tear the value too.
- RtpTorn.ReadTimeOutStaysWhole: synchronous ports; the same time-out on an asynchronous port is not modelled.
- RtpAsync: AIE-ML lock values and updates while the graph is suspended, because the initial lock values come from a compiler outside the repository.
- RtpProtocol: ports without locks, and the shared-buffer form of update.
- GraphLifecycle: `resume`, the broadcast way of enabling cores, and the polling inside waiting for a core; a core's answer is a parameter.
- Gmio: the driver's descriptor contents; only which descriptors are queued is modelled.
- IpcFraming: connections that fail in the middle of a session or are opened again after it; `SendAll` and `RecvAll` cover the errors of single transfers.
- IpcServer: the passing of simulated time between two register reads; reads by debug clients are taken to leave the device alone, and `PureIff` says when they do.
- Cdo.BlockLandsInOrder: is about blocks that do not wrap; `BlockLands` says where the words of every block go.
- Relocation.Relocate: offsets that are not multiples of four, where the source makes misaligned word accesses.
- ColumnImage: aliasing between pages and the section data that relocation patches; sections are taken as they are after relocation.
- CertPacket.FillOneLevel: the field-by-field order of writing inside one structure; each structure is written at once, and the loop over the columns is split into computing the pieces and writing them.
- CertRing: cache maintenance around the shared memory; a completed write is visible.
- CertSubmit: waking and loading the microcontrollers, and the handshake block.
- Packing: names that are not ASCII, and reads past the end of a file, which the source does not check and the model reports as `Bad`.
- IpcMeaning.ReadsSeeLastWrites: devices whose registers change only when they are written; `IpcClient.WriteThenRead` asks for no more of the device than the property itself.
- Metadata.GraphIff: triggers given as numbers, which are packed as they are.
- Metadata: `aiecompiler_options`, three truth values; and the broadcast column derived from the partitions.
- XAie driver calls, ELF parsing, sockets and SystemC are foreign code; their answers are parameters.
- Wrapper classes, profiling, error backtracking and demos: they forward to, report on or use what is modelled here.
