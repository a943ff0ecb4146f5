# Oculus driver: verified model

A Dafny model of the parts of the Oculus sonar driver that hold state or do arithmetic, with
proofs about all of their inputs, runs and interleavings. `dafny verify dfyconfig.toml` checks
everything.

| file | what it models |
|---|---|
| `Basics.dfy`, `Bytes.dfy` | shared definitions; little-endian integers, `resize` and copies of byte buffers |
| `OculusMessage.dfy` | the packed 16-byte message header, and the message object that is rewritten in place |
| `LogFormat.dfy` | the `.oculus` file header, item headers and time stamps, byte by byte |
| `Recorder.dfy` | the log writer on an output stream |
| `FileReader.dfy` | the log reader, with one item of lookahead, on an input stream with position, eof and fail bits |
| `LogTheorems.dfy`, `LogResults.dfy` | what any log means, and that the reader returns that; cuts, round trip, pings, rewind |
| `CallbackQueue.dfy` | the callback table: search for a free identifier, dispatch |
| `SingleShots.dfy` | the single-shot protocol as steps of any number of threads |
| `SonarClient.dfy` | the handlers of the client's event loop: watchdog, connection, reception |
| `ConnectionTheorems.dfy` | every run of these handlers |
| `ClockTheorems.dfy` | the watchdog in the times of the events |
| `Framing.dfy` | which bytes of a stream the reception loop hands on |
| `SonarDriver.dfy` | the configuration tracker: sends, standby and resume, feedback |
| `DriverTheorems.dfy` | what it tracks, sends and answers, in the fields of the messages |
| `SendRaces.dfy` | sends and message handlers interleaved step by step |
| `RecorderHandle.dfy` | starting and stopping a recording from Python, up to the file that is left |
| `ReceivedLog.dfy` | from the network to the file and back, across all of the above |
| `ImageLayout.dfy` | sample sizes, image layout, and the conversion of a ping to an array |
| `BearingLut.dfy` | the bearing lookup table and its lookups |

Code that changes state is a class whose methods are proved against functions on the state
(`State`, `Value`); the theorems are about those functions and about runs made of them. The
message of a reader or client is one shared object that every call overwrites, so results about
several messages speak of snapshots. Threads, sockets and timers appear as the events they cause.

## Where the code differs from what it promises

Each of these is proved, with the exact condition or with a run that shows it.

- `rewind` works while a message of a recording is left. Reading the last one fails the stream
  through the lookahead behind it, and from then on `rewind` raises an exception
  (`LogResults.RewindWorksUntilLastMessage`).
- Opening a recorder that is already open drops its header and all later messages, although each
  write still returns the full size (`LogWriter.FileIsLogIffNotReopened`).
- A message of 4 GiB or more is cut by the 32-bit size field (`LogResults.RecordedExactlyIffFits`).
- The comment in `CallbackQueue.h` that one flag is enough for all waiters holds as long as nobody
  registers between the end of a dispatch and the return of the waiters. Otherwise a waiter whose
  callback has run can sleep on, time out and return false (`SingleShots.WakeUpWindow`,
  `SingleShots.DisturbedWaiterReturnsFalse`). A single shot that has timed out is still run by the
  next dispatch (`SingleShots.TimedOutShotStaysPending`, `SingleShots.RegisteredRunsInDispatch`);
  that of `current_ping_config` then writes to a local variable that is gone.
- A client that misses status datagrams for five seconds stays in `Lost` for as long as messages
  keep arriving (`ClockTheorems.StaysLostIffNoTickResets`).
- A user who removes an identifier that the client's hook has reused keeps the client in `Attempt`
  for ever (`ConnectionTheorems.RemovedHookIsNeverReplaced`). So does a connect that fails
  (`ConnectionTheorems.FailedConnectIsForEver`).
- There is a second reception loop exactly if a connect succeeds while an older read is outstanding
  (`ConnectionTheorems.SingleLoopIff`). That happens when shutting down a socket reports an error,
  and the early return keeps the socket, but also after a successful close whose aborted read
  completes late. The shared message can then be handed on with a header that is not its own
  (`ConnectionTheorems.SurvivingReadMakesTwo`, `ConnectionTheorems.TwoReadsMixBytes`).
- A header that has been received, but is handled only after a tick has closed the connection, goes
  through a null socket. As long as there is one reception loop nothing else is undefined
  (`ConnectionTheorems.QueuedHeaderFindsNoSocket`, `ConnectionTheorems.LoopBreaksIff`,
  `ConnectionTheorems.SafeIffSound`).
- The comment in `SonarClient.cpp` that a short read brings the reception back in step is wrong:
  as long as no valid header comes before it, a frame is found exactly if the number of bytes in
  front of it is a multiple of 16 (`Framing.FoundIffInStep`, `Framing.DeliveredIffInStep`), and
  otherwise the loop can miss every later frame too (`Framing.StrayBytesLoseEveryFrame`).
- Sends and message handlers share two members without a lock. A dummy, or any message whose handler
  began before the send stored its rate, can lose the rate sent by writing another one back in the
  middle of the send (`SendRaces.RateSavedIff`, `SendRaces.EarlyHandlerUndoesSend`). A send of standby
  can change the rate to resume (`SendRaces.StandbySendKeepsRateIff`), and a standby copy written back
  between test and save makes `resume` ask for standby, which nothing else does
  (`SendRaces.DummyMakesResumeStandby`, `SendRaces.NeverStandbyIff`).
- A recorder started on a table without other callbacks gets identifier 0, which is never removed;
  the next recording then writes each message twice
  (`RecorderHandle.StopUndoesStartIffOthersPresent`, `RecorderHandle.SecondRecordingWritesTwice`). A
  stop without a recording can remove a user's callback (`RecorderHandle.StopRemovesOthersIff`).
- With gains the array is not in the documented row-major order unless there is one beam, and it
  is written out of bounds when there are more beams than ranges (`ImageLayout.RowMajorIffOneBeam`,
  `ImageLayout.InBoundsIff`).
- In version-2 pings `has_gains` and `sample_size` call each other without end for unknown data
  sizes whose lines divide the image (`ImageLayout.Version2EndsIff`).
- A fan that is off centre by a step or more is looked up outside of the table
  (`BearingLut.AllInTableIffNearlySymmetric`).

## Model

| member | source | states |
|---|---|---|
| OculusMessage.LoadStoreHeader | include/oculus_driver/Oculus.h:129-138 | A header stored in 16 packed little-endian bytes is loaded back exactly, from the start of any longer buffer |
| OculusMessage.StoreLoadHeader | include/oculus_driver/Oculus.h:129-138 | Any 16 bytes loaded as a header and stored again are the same bytes, so a header read from the network loses nothing |
| OculusMessage.HeaderLayout | include/oculus_driver/Oculus.h:129-138 | Each field of a header is the little-endian number at its offset in the packed structure |
| OculusMessage.Message.UpdateFromHeader | include/oculus_driver/OculusMessage.h:57-61 | Afterwards the buffer has the announced size and the header agrees with its first 16 bytes; old payload bytes are kept or zero-extended, and the time stamp is renewed |
| OculusMessage.Message.UpdateFromData | include/oculus_driver/OculusMessage.h:62-64 | Afterwards the header agrees with the data; data and time stamp are untouched |
| OculusMessage.Message.Create | include/oculus_driver/OculusMessage.h:81-95 | Null exactly if the magic number is wrong or the announced size is not the size of the buffer; otherwise a new consistent message with these bytes and this stamp |
| LogFormat.LoadStoreLogHeader | include/oculus_driver/Recorder.h:45-54 | Round trip of the 48-byte file header, through its padding |
| LogFormat.LoadStoreItem | include/oculus_driver/Recorder.h:56-66 | Round trip of the 40-byte item header, through its padding |
| LogFormat.ItemLayout | include/oculus_driver/Recorder.h:56-66 | Each field of an item header lies at its naturally aligned offset |
| LogFormat.LoadStoreStamp | include/oculus_driver/Recorder.h:105-107 | Round trip of the 16 bytes of a time stamp |
| LogFormat.StampLayout | include/oculus_driver/Recorder.h:105-107 | Seconds first, then nanoseconds |
| LogFormat.StampRoundTrip | include/oculus_driver/Recorder.h:109-124 | Every 64-bit time point, also one before the epoch, survives the split into seconds and nanoseconds with wrapping unsigned arithmetic; the nanoseconds stay below one second |
| LogWriter.Recorder.Open | src/Recorder.cpp:18-40 | A closed recorder starts a new file with exactly the file header; an open one, or a file that is not available, only gets the fail bit; an exception is raised iff the recorder ends up not open |
| LogWriter.Recorder.Close | src/Recorder.cpp:42-45 | Afterwards the recorder is closed and the contents are as before; the fail bit is set iff it was, or the recorder was not open |
| LogWriter.Recorder.WriteItem | src/Recorder.cpp:47-57 | A closed recorder writes nothing and returns 0; an open one appends one record and returns its length |
| LogWriter.Recorder.Write | src/Recorder.cpp:59-87 | An open recorder appends the sonar record and the stamp record of the message as one piece and returns their total length |
| LogWriter.RecordedBytes | src/Recorder.cpp:47-87 | Writing any messages one after the other appends exactly the records of all of them, whose length is the sum of the returned sizes |
| LogWriter.RecordingLeavesLog | src/Recorder.cpp:18-87 | Open, any writes, close: the file is the log of these messages, 48 bytes plus the sum of the returned sizes long |
| LogWriter.HeaderBytes | src/Recorder.cpp:27-39 | The first 48 bytes of every recording, byte by byte: magic number, size, "Oculus", version 1, no encryption, no key, the time |
| LogWriter.ItemsOf | src/Recorder.cpp:68-84 | The two items of a message: magic number, size, kind, no version and compression, its date, and both size fields |
| LogWriter.FileIsLogIffNotReopened | src/Recorder.cpp:18-87 | Over every sequence of opens, writes and closes of a new recorder: the file is the log of all messages accepted since the last effective open iff none of them was written behind an open of the open recorder |
| LogReader.InFile.Read | src/Recorder.cpp:154-155 | The stream primitive: all bytes asked for unless the stream fails, never more, and the file is not changed |
| LogReader.NextHeader | src/Recorder.cpp:151-166 | Leaves file and message alone; an item found costs 40 bytes of what is left, which bounds every loop of the reader |
| LogReader.JumpItem | src/Recorder.cpp:168-185 | Consumes: the measure of what is left falls strictly while an item is pending; the message is not touched |
| LogReader.ReadItem | src/Recorder.cpp:187-204 | The same measure falls; a successful read delivers exactly the payload size, a failing one never more |
| LogReader.SkipToSonar | src/Recorder.cpp:219 | The search loop ends on every stream and never touches the message |
| LogReader.NextMessage | src/Recorder.cpp:216-242 | A message answered is the one the shared object then holds, and costs at least one item |
| LogReader.FileReader.constructor | src/Recorder.cpp:89-95 | A reader with nothing pending, a closed stream and an empty message of its own |
| LogReader.FileReader.Open | src/Recorder.cpp:104-143 | Succeeds iff the stream was closed, the file is there, holds a whole header, has the magic number and is not encrypted; then the first item is looked up; opening an open reader only fails its stream |
| LogReader.FileReader.ReadNextHeader | src/Recorder.cpp:151-166 | Refines the lookahead function: position taken before the read; at the end item and position are zeroed, and an exception is raised unless the end of file was reached |
| LogReader.FileReader.RewindToStart | src/Recorder.cpp:145-149 | Refines seek-and-lookahead, where a seek clears the eof bit but not the fail bit; the file header stays |
| LogReader.FileReader.Jump | src/Recorder.cpp:168-185 | Refines the jump: the position of the item jumped over, 0 at the end, an exception on a failed seek |
| LogReader.FileReader.ReadNextItem | src/Recorder.cpp:187-204 | Refines the read of a payload: bytes, position and new lookahead |
| LogReader.FileReader.ReadNextItemIntoMessage | src/Recorder.cpp:207-214 | Refines the read into the message buffer, resized first, of which a short payload overwrites only the front |
| LogReader.FileReader.ReadNextMessage | src/Recorder.cpp:216-242 | The loop over shared, mutable state refines the recursive reader: same answer, same object handed out, same state, same exceptions |
| LogReader.FileReader.ReadNextPing | src/Recorder.cpp:244-253 | The loop refines the recursive ping reader in answer, object and state, and ends on every file |
| LogTheorems.ReadLog | src/Recorder.cpp:151-242 | Main parsing theorem: for any mix of items, cut at any byte, any number of calls of the reader answer exactly the recursive meaning of the log, then null for ever |
| LogTheorems.Exhausted | src/Recorder.cpp:216-222 | Once no item is pending every further call answers null |
| LogTheorems.SkipOther | src/Recorder.cpp:219 | An item of another kind, complete or cut, is invisible: reading from it is reading from behind it |
| LogTheorems.ReadSonar | src/Recorder.cpp:216-226 | A complete sonar item becomes the message, whatever the shared buffer held before, and leaves only the stamp to be settled |
| LogTheorems.Stamped | src/Recorder.cpp:225-235 | A sonar item directly followed by a stamp item is answered with that stamp, and both are consumed |
| LogTheorems.Unstamped | src/Recorder.cpp:224-239 | A sonar item followed by anything else is answered with its own date, and only it is consumed |
| LogTheorems.CutSonar | src/Recorder.cpp:187-199 | A sonar item whose payload is cut raises an exception and leaves nothing pending |
| LogTheorems.CutStamp | src/Recorder.cpp:230-235 | A cut stamp raises an exception instead of the message in front of it, then null for ever |
| LogTheorems.ReadTail | src/Recorder.cpp:151-166 | What is left behind the last complete record never yields a message |
| LogTheorems.UndefinedIffUnreadable | src/Recorder.cpp:216-242 | For any log, complete or cut: some answer is undefined iff, in front of the first item of kind 0, a sonar payload is below 16 bytes or a stamp behind a sonar item is not 16 bytes long |
| LogResults.RecordingOpens | src/Recorder.cpp:104-143 | Every recording, also one cut anywhere behind its header, passes the checks of open |
| LogResults.MixedLog | src/Recorder.cpp:216-242 | Every complete log of any items is read as its recursive meaning: sonar items in order, each with the stamp right behind it or else its own date, nothing after an item of kind 0 |
| LogResults.ReadsNext | src/Recorder.cpp:216-242 | Reading one message takes the first answer off the reader's future and leaves the rest |
| LogResults.PingsAreFilteredMessages | src/Recorder.cpp:244-253 | From any reader, the answers of the ping reader are those of the message reader without the messages that are no pings |
| LogResults.MixedLogPings | src/Recorder.cpp:244-253 | Every complete log: the ping reader answers the pings of the log's meaning, then null |
| LogResults.CutBytes | src/Recorder.cpp:47-87 | The first k bytes of any records are the complete records among them and a tail that is no complete record, and stay readable |
| LogResults.TruncatedLog | src/Recorder.cpp:151-242 | Any log cut at any byte behind its header is read as the records it still holds |
| LogResults.CutRecording | src/Recorder.cpp:59-87 | The meaning of a recording cut at byte k in closed form, message by message |
| LogResults.TruncatedRecording | src/Recorder.cpp:151-242 | The exact answers for a recording cut at any byte |
| LogResults.TruncationSafety | src/Recorder.cpp:216-242 | No wrong message: reading a recording cut at any byte gives a prefix of the messages, exact in header, data and stamp, then at most an exception or the next message with the date of its item as stamp, then null for ever |
| LogResults.RoundTrip | src/Recorder.cpp:18-87 | Recording any consistent messages below 4 GiB and reading them back gives the same headers, data and stamps in order, then null for ever |
| LogResults.OpenAndReadBack | src/Recorder.cpp:104-242 | From the opening of the file on: a recording is accepted, and the reader gives the messages back whatever its members held |
| LogResults.RecordedExactlyIffFits | src/Recorder.cpp:77-79 | A consistent message is read back exactly iff it is smaller than 4 GiB |
| LogResults.HeaderKeepsPosition | src/Recorder.cpp:151-166 | The lookahead establishes: a pending item is the one stored at the reported position, and the stream stands good 40 bytes behind it |
| LogResults.ItemKeepsPosition | src/Recorder.cpp:168-214 | Jumping and reading keep that; a jump over a pending item never fails and never returns 0; positions only grow |
| LogResults.SkipKeepsPosition | src/Recorder.cpp:219 | The search keeps that, raises nothing, and ends at a sonar item or at the end |
| LogResults.MessageKeepsPosition | src/Recorder.cpp:216-242 | Reading a message keeps that, on any file |
| LogResults.PingKeepsPosition | src/Recorder.cpp:244-253 | Reading a ping keeps that, on any file |
| LogResults.RewindKeepsPosition | src/Recorder.cpp:145-149 | Rewinding keeps that, on any file |
| LogResults.JumpsBounded | src/Recorder.cpp:219 | The search jumps over at most (file size - position) / 40 items |
| LogResults.JumpIsReadIffComplete | src/Recorder.cpp:168-204 | Jumping over an item and reading it leave the same reader and position iff its payload is all there |
| LogResults.RewindRestoresIffGood | src/Recorder.cpp:145-149 | Rewind gives the reader as just opened iff the stream has not failed; otherwise it raises an exception and nothing is pending |
| LogResults.RewindWorksUntilLastMessage | src/Recorder.cpp:145-166 | After n messages of a recording rewind raises an exception iff these were all, and else restores the opened reader |
| CallbackTable.FreshId | include/oculus_driver/CallbackQueue.h:82-84 | The identifier is free, the first free one from the table's size on, and at most twice that size |
| CallbackTable.FindFreeId | include/oculus_driver/CallbackQueue.h:82-84 | With a wrapping 32-bit counter and fewer than 2^32 entries the search ends within size + 1 probes at the first free identifier of its order; below 2^31 entries it does not wrap and the identifier is at most twice the size |
| CallbackTable.NthDistance | include/oculus_driver/CallbackQueue.h:82-84 | The first 2^32 probes of the wrapping counter are distinct, which is why the search ends |
| CallbackTable.CallbackQueue.constructor | include/oculus_driver/CallbackQueue.h:60-66 | Empty tables, and a flag that may hold anything |
| CallbackTable.CallbackQueue.AddCallback | include/oculus_driver/CallbackQueue.h:76-88 | Adds one entry under an identifier that was free and changes no other |
| CallbackTable.CallbackQueue.RemoveCallback | include/oculus_driver/CallbackQueue.h:90-95 | Removes that entry only, and tells whether there was one |
| CallbackTable.CallbackQueue.RegisterSingleShot | include/oculus_driver/CallbackQueue.h:107-111 | Clears the flag and adds one pending shot without touching the others |
| CallbackTable.CallbackQueue.CallAll | include/oculus_driver/CallbackQueue.h:140-149 | Every entry of the table is called exactly once, in some order |
| CallbackTable.CallbackQueue.Call | include/oculus_driver/CallbackQueue.h:126-155 | Every regular callback once, then every pending shot once; then no shot is pending and the flag is up |
| SingleShots.StepInv | include/oculus_driver/CallbackQueue.h:97-155 | Every step of every thread keeps: one thread at most in a critical section, the flag up only while no shot is pending, tickets distinct, no ticket run twice, none lost, and a true result only after one's own callback |
| SingleShots.RunInv | include/oculus_driver/CallbackQueue.h:97-155 | The same in every reachable state of every interleaving of any number of threads |
| SingleShots.ExactlyOnce | include/oculus_driver/CallbackQueue.h:97-155 | From the empty queue, under any interleaving: no callback runs twice; between dispatches each registered one is pending or has run, not both; true is returned only after one's own callback has run; the flag is up only while nothing is pending |
| SingleShots.PendingUntilDispatch | include/oculus_driver/CallbackQueue.h:109-111 | Over any run a pending callback keeps its identifier, whatever is registered meanwhile, until a dispatch ends |
| SingleShots.FlagIsLastWrite | include/oculus_driver/CallbackQueue.h:107-151 | In any run the flag is what its last writer left: a registration or the end of a dispatch |
| SingleShots.WaiterSucceedsIffUndisturbed | include/oculus_driver/CallbackQueue.h:115-123 | In any run from the start a waiter that tests the flag returns true iff nobody registered since the end of the last dispatch |
| SingleShots.WakeUpWindow | include/oculus_driver/CallbackQueue.h:102-107 | The comment under its real condition: from the end of a dispatch, as long as nobody registers, every waiter is on its way out or has returned true, and nobody sleeps once all are notified |
| SingleShots.WokenWaiterGetsOut | include/oculus_driver/CallbackQueue.h:113-121 | A woken waiter that gets the mutex while the flag is up returns true |
| SingleShots.SleeperCanTimeOut | include/oculus_driver/CallbackQueue.h:117-121 | While the flag is down a sleeper can time out and return false, whether or not its callback has run |
| SingleShots.FalseOnlyAfterTimeout | include/oculus_driver/CallbackQueue.h:113-121 | Over every run: false is returned only to a thread that has timed out since it registered, never for a spurious wake-up |
| SingleShots.NewcomerPutsWaiterBackToSleep | include/oculus_driver/CallbackQueue.h:102-124 | A registration between the end of a dispatch and a waiter's return: the waiter is notified and goes back to sleep |
| SingleShots.DisturbedWaiterReturnsFalse | include/oculus_driver/CallbackQueue.h:102-124 | A run of three threads in which a call returns false although its callback has run |
| SingleShots.TimedOutShotStaysPending | include/oculus_driver/CallbackQueue.h:117-121 | After a timeout the callback is still pending and the next dispatch has to run it |
| SingleShots.RegisteredRunsInDispatch | include/oculus_driver/CallbackQueue.h:97-155 | Over any run the first dispatch that ends behind a registration has run its callback, also if the call that registered it has returned false |
| SonarClients.SonarClient.constructor | src/SonarClient.cpp:25-43 | A new client is in Attempt, without socket, identity or reads, with its hook as the only status callback |
| SonarClients.SonarClient.InitiateReceive | src/SonarClient.cpp:186-202 | Starts one header read on the current socket, none without a socket |
| SonarClients.SonarClient.CloseConnection | src/SonarClient.cpp:124-143 | Drops the socket unless shutting it down reports an error |
| SonarClients.SonarClient.ResetConnection | src/SonarClient.cpp:116-122 | Attempt, socket closed, and the hook registered under a free identifier; no other hook is left |
| SonarClients.SonarClient.CheckerCallback | src/SonarClient.cpp:71-103 | A tick does nothing while attempting, gives the connection up as lost after 5 s without status, and otherwise resets it after 10 s without message |
| SonarClients.SonarClient.OnFirstStatus | src/SonarClient.cpp:145-161 | Removes the entry under the remembered identifier, takes identity and address from the status, and starts one connect on a new socket |
| SonarClients.SonarClient.StatusReceived | src/StatusListener.cpp:69-89 | An intact datagram resets the status clock and runs the hook once if it is registered, whatever the order of the callbacks; any other datagram changes nothing |
| SonarClients.SonarClient.AddStatusCallback | src/StatusListener.cpp:51-55 | A user callback under an identifier that was free; nothing else changes |
| SonarClients.SonarClient.RemoveStatusCallback | src/StatusListener.cpp:57-60 | Removes the entry under the identifier, whoever owns it |
| SonarClients.SonarClient.ConnectCallback | src/SonarClient.cpp:163-179 | A successful connect restarts the message clock, goes to Connected and starts the reception; a failed one only fails |
| SonarClients.SonarClient.HeaderReceivedCallback | src/SonarClient.cpp:204-232 | A complete header of the right magic number and source sizes the message and starts the payload read; anything else starts over |
| SonarClients.SonarClient.DataReceivedCallback | src/SonarClient.cpp:234-250 | A complete payload is put behind the header, handed on, and restarts clock and loop; a short one starts over; the clock is pinned by ClockTheorems.ClocksAreEventTimes |
| ConnectionTheorems.ConstructedConnInv | src/SonarClient.cpp:25-43 | A new client fulfils the connection invariant, its hook under identifier 0 |
| ConnectionTheorems.ConnStep | src/SonarClient.cpp:71-250 | Every event keeps the invariant: in Attempt exactly one of hook registered, connect in flight, connect failed; in Connected and Lost none of them; never Initializing; the hook only under the remembered identifier |
| ConnectionTheorems.ConnRun | src/SonarClient.cpp:71-250 | The same over every run in which users remove only their own identifiers |
| ConnectionTheorems.FirstStatusRemovesOwnHook | src/SonarClient.cpp:145-161 | In every such run from the constructor the first status removes the client's own hook and no user callback, even on reused identifiers, and starts exactly one connect |
| ConnectionTheorems.RemovedHookIsNeverReplaced | src/SonarClient.cpp:71-81 | Without that hypothesis: once a user removes the hook's identifier the client is in Attempt for ever and creates no socket |
| ConnectionTheorems.FailedConnectIsForEver | src/SonarClient.cpp:163-169 | After a failed connect no later event of any run starts another attempt, even if the event loop survives the exception |
| ConnectionTheorems.ResetIffStale | src/SonarClient.cpp:83-102 | Connected or Lost goes to Attempt at exactly the ticks with a status at most 5 s and a message more than 10 s old; Connected goes to Lost at exactly the ticks with an older status; Lost never goes straight to Connected |
| ConnectionTheorems.StaysConnectedIffHealthy | src/SonarClient.cpp:71-103 | A connection stays up in every state of a run iff each of its ticks finds the status at most 5 s and the message at most 10 s old |
| ConnectionTheorems.NewConnectionIsFresh | src/SonarClient.cpp:172-176 | The same from a connect on, whose moment counts as that of the last message, however old that was |
| ConnectionTheorems.SilentConnectionIsReset | src/SonarClient.cpp:71-103 | Messages stop at t0, ticks at most P apart, fresh status at every tick: some tick in (t0 + 10, t0 + 10 + P] resets, and until then the client stays Connected |
| ConnectionTheorems.LostReconnects | src/SonarClient.cpp:163-179 | Every run from Lost to Connected passes through Attempt and a later successful connect |
| ConnectionTheorems.LostWhileMessagesArrive | src/SonarClient.cpp:83-102 | As long as no tick finds the last message more than 10 s old, a client in Lost stays there |
| ClockTheorems.ArrivesIffWhole | src/SonarClient.cpp:237-246 | A payload read hands a message on iff it got all that the header announced |
| ClockTheorems.ClocksAreEventTimes | src/SonarClient.cpp:83-102 | Over every run from the constructor: the age of the status counts from the last intact datagram, that of messages from the last message handed on or the last successful connect |
| ClockTheorems.StaysConnectedIffInTime | src/SonarClient.cpp:83-102 | In the times of the events alone: a client that is connected stays so iff every tick comes within 5 s of an intact datagram and within 10 s of a message or the connect |
| ClockTheorems.StaysLostIffNoTickResets | src/SonarClient.cpp:83-102 | A client that is lost stays so iff no tick comes within 5 s of an intact datagram but more than 10 s behind the last message or connect |
| ClockTheorems.SilenceResets | src/SonarClient.cpp:71-103 | If nothing arrives after t0, ticks come at most P apart and a datagram within 5 s of each, some tick in (t0 + 10, t0 + 10 + P] resets the connection, and none before |
| ConnectionTheorems.ConstructedLoopInv | src/SonarClient.cpp:25-43 | A new client fulfils the loop invariant |
| ConnectionTheorems.LoopStep | src/SonarClient.cpp:124-250 | Every event keeps the loop invariant, unless a connect succeeds while a read is outstanding or a header completes without a socket |
| ConnectionTheorems.LoopBreaksIff | src/SonarClient.cpp:163-231 | From any state of the invariant: a step makes a second read iff it is such a connect, and is undefined iff it is a whole valid header that finds the socket dropped |
| ConnectionTheorems.SafeIffSound | src/SonarClient.cpp:124-250 | Over every run: at most one read and no use of a null socket in any state iff every connect succeeds without a read outstanding and no whole valid header completes without a socket; every message handed on is then complete and agrees with its header |
| ConnectionTheorems.SingleLoopIff | src/SonarClient.cpp:124-250 | Over every run from the constructor in which users remove only their own identifiers: never more than one read iff every connect that succeeds finds none outstanding |
| ConnectionTheorems.SingleLoop | src/SonarClient.cpp:124-250 | What the original counts on is enough: if shutdown succeeds and an aborted header read completes, short, before the next status, every run from the constructor is safe in that sense |
| ConnectionTheorems.MessageStable | src/SonarClient.cpp:228-250 | In a safe run nothing else changes the shared message between the arrival of a header and the hand-over |
| ConnectionTheorems.SurvivingReadMakesTwo | src/SonarClient.cpp:116-161 | From any connected client waiting for a header, if shutdown reports an error as well as if it succeeds and the aborted read completes late: a run to two header reads on the new, live socket |
| ConnectionTheorems.TwoReadsMixBytes | src/SonarClient.cpp:198-250 | The run continued, with the bytes shared in the order of the reads: the second header read takes the first 16 bytes of a payload; the message is handed on iff these happen to announce the size of the frame, and then its header and data do not belong together |
| ConnectionTheorems.QueuedHeaderFindsNoSocket | src/SonarClient.cpp:124-142 | From any connected client waiting for a header, with an orderly shutdown: a run in which a header already received goes through the null socket |
| Framing.AfterData | src/SonarClient.cpp:204-250 | A complete frame read in two pieces is handed on as exactly its slice of the stream |
| Framing.FeedTurn | src/SonarClient.cpp:186-250 | One turn of the loop: 16 bytes skipped, a frame handed on whole, or a payload left waiting, and the stream read on behind it |
| Framing.FeedDeliversFrames | src/SonarClient.cpp:186-250 | On any stream the handlers deliver exactly the frames that a scan in step with them finds |
| Framing.SlicesAreDisjoint | src/SonarClient.cpp:186-250 | On any stream the delivered messages are slices in order and without overlap |
| Framing.MessagesAgree | src/SonarClient.cpp:217-231 | On any stream each delivered message has the header and the size that its own first bytes announce, the magic number and the sonar's identity |
| Framing.FramesDelivered | src/SonarClient.cpp:186-250 | On a stream of frames and 16-byte chunks that are no valid header, in any order and with an unfinished end, exactly the frames are delivered, in order |
| Framing.FoundIffInStep | src/SonarClient.cpp:190-194 | Behind chunks that are no valid header, a frame is found iff the number of bytes in front of it is a multiple of 16; otherwise the search goes on behind its start |
| Framing.DeliveredIffInStep | src/SonarClient.cpp:190-194 | The same of the handlers: in step they deliver that frame next, out of step they pass over its start |
| Framing.StrayBytesLoseEveryFrame | src/SonarClient.cpp:190-194 | Behind eight stray bytes the loop misses each of any number of frames without payload whose version field is not the magic number |
| SonarDrivers.SonarDriver.constructor | include/oculus_driver/utils.h:51-83 | Starts from the default configuration, field by field, and the normal rate |
| SonarDrivers.SonarDriver.SendPingConfig | src/SonarDriver.cpp:30-64 | One fire message goes out, field by field the one requested but for the fixed header fields and network speed; only a whole send records its rate, and nothing but its rate, and only a rate other than standby as the one to resume |
| SonarDrivers.SonarDriver.Standby | src/SonarDriver.cpp:125-132 | Sends the last configuration with the standby rate |
| SonarDrivers.SonarDriver.Resume | src/SonarDriver.cpp:134-141 | Sends the last configuration with the rate to resume |
| SonarDrivers.SonarDriver.OnConnect | src/SonarDriver.cpp:148-153 | Sends the last configuration again |
| SonarDrivers.LoadStoreConfig | include/oculus_driver/Oculus.h:141-164 | The 53 packed bytes of a fire message whose four numbers are doubles are read back, at the start of any message, as they were stored |
| SonarDrivers.ConfigLayout | include/oculus_driver/Oculus.h:141-164 | Each field of a fire message lies at its offset in the packed structure |
| SonarDrivers.SonarDriver.HandleMessage | src/SonarDriver.cpp:158-187 | The configuration in a ping's bytes with the tracked rate and the gain rescaled, or standby for a dummy, becomes the last one; a change is announced with old and new exactly if one tolerance is exceeded; a ping of fewer than 53 bytes, and only that, is read out of bounds |
| SonarDrivers.SonarDriver.RequestPingConfig | src/SonarDriver.cpp:71-123 | The retry loop refines the recursive negotiation in state and result for every environment, with messages between its steps; what comes back is in DriverTheorems.AnswerIsReport |
| SonarDrivers.SettlesIff | src/SonarDriver.cpp:99-112 | The loop ends iff some round is accepted or a hundred rounds do not time out |
| SonarDrivers.SilenceNeverSettles | src/SonarDriver.cpp:106-109 | Timeouts alone, any number of them, never end it |
| SonarDrivers.SettledIsAcceptedOrMarked | src/SonarDriver.cpp:99-122 | The result passes the feedback check, or is the request with the gain flag and message id 0 after a hundred counted rounds |
| DriverTheorems.AnswerIsReport | src/SonarDriver.cpp:75-123 | For every environment the result is what the sonar reports in the first accepted round: the header caught, the settings of that ping with its gain mapped back, or for standby those of the last ping before, and the rate; else the marked request; and the driver has been through exactly these rounds |
| DriverTheorems.ResultIsReport | src/SonarDriver.cpp:96-122 | The same from any state and count, with no earlier round accepted |
| SonarDrivers.AcceptedIffEchoed | include/oculus_driver/utils.h:86-123 | Exactly the answers that end a request: a dummy for standby; otherwise a ping with the same discrete fields and range, a gain within 0.1, or 0.06 of the mapped gain in high-frequency mode, and sound speed or salinity within 0.1 |
| SonarDrivers.EchoIsAccepted | src/SonarDriver.cpp:167-175 | A sonar that echoes a request, with the gain mapped to 40 + 0.6 g in high-frequency mode, is accepted in the first round for every gain, and the requested gain comes back |
| SonarDrivers.LastPingRateIsLastActive | src/SonarDriver.cpp:51-62 | Over every sequence of sends, standbys, resumes, connects and messages, each over before the next begins, the rate to resume is the last one sent whole that was not standby |
| SonarDrivers.ResumeAsksForLastActive | src/SonarDriver.cpp:125-141 | So from the start, if operations do not overlap, resume asks for that rate, normal if there was none, and never for standby |
| DriverTheorems.ConfigIsLastReported | src/SonarDriver.cpp:158-187 | Over every sequence of sends, standbys, resumes, connects, dummies and other messages: all of the last configuration but the rate is what the last ping reports, its gain mapped back, or what it was at the start |
| DriverTheorems.RateIsLastEvent | src/SonarDriver.cpp:56-62 | Over every such sequence the rate of the last configuration is that of the last whole send, or standby if a dummy came since |
| DriverTheorems.OwnRequestsOnTheWire | src/SonarDriver.cpp:125-153 | After any operations since the start: a resume puts the last reported settings on the wire with the last active rate, a standby with the standby rate, a connect with the tracked one, addressed to the sonar |
| DriverTheorems.EchoOfTheWireIsAccepted | src/SonarDriver.cpp:30-46 | A sonar that reports back what came over the wire, its gain mapped, is accepted in the first round, and the answer has the settings asked for |
| SendRaces.UninterruptedSend | src/SonarDriver.cpp:56-62 | Without interruption the send in steps is the whole send |
| SendRaces.UninterruptedHandler | src/SonarDriver.cpp:162-187 | Without interruption the handler in steps is the whole handler |
| SendRaces.RateSavedIff | src/SonarDriver.cpp:51-62 | For every interleaving of a whole send of an active rate with message handlers: the rate to resume is the rate sent iff nothing is written back between store and save by a dummy, or by a handler that copied before the store with another rate, except that a rate left alone by standby may happen to be the same |
| SendRaces.EarlyHandlerUndoesSend | src/SonarDriver.cpp:162-187 | A handler of any message but a dummy, begun before the store and finished behind it, makes the send save the old rate |
| SendRaces.SendResult | src/SonarDriver.cpp:51-62 | The result of a whole send of any rate, standby included, for every interleaving with message handlers: whether a rate is saved, that otherwise the old one stays, and when the saved one is standby |
| SendRaces.StandbySavedIff | src/SonarDriver.cpp:60-61 | From an active rate to resume, for every interleaving: it is standby after a send iff a dummy, or a handler that took a standby copy before the store, writes back between test and save |
| SendRaces.StandbySendKeepsRateIff | src/SonarDriver.cpp:125-132 | For every interleaving of a send of standby: the rate to resume is left alone unless an active copy from before the store is written back between store and test, and no dummy behind it; then that rate is saved, or standby |
| SendRaces.DummyMakesResumeStandby | src/SonarDriver.cpp:60-61 | A dummy handled between test and save of any active rate: resume then asks for standby |
| SendRaces.NeverStandbyIff | src/SonarDriver.cpp:30-64 | Over every interleaving of any sends, standbys, resumes and connects with any messages: the rate to resume is never standby iff no standby copy is written back between the test and the save of a send |
| SendRaces.CleanCallsResumeLastActive | src/SonarDriver.cpp:30-64 | Over every interleaving in which handlers write nothing harmful back inside the sends, resume asks for the last rate sent whole that was not standby |
| SonarDrivers.UnannouncedDrift | include/oculus_driver/utils.h:125-141 | n messages without announcement leave the discrete fields alone and move the range by at most n * 0.001 and the other numbers by at most n * 0.1 |
| DriverTheorems.AnnouncedIff | src/SonarDriver.cpp:184-186 | Exactly which messages are announced: a ping that differs in a discrete field or by more than a tolerance, as reported; a dummy behind another rate; nothing else |
| SonarDrivers.DriftIsReached | include/oculus_driver/utils.h:135 | From any state n messages can move the range by n * 0.001 without one announcement |
| RecorderHandle.PythonHandle.constructor | python/src/oculus_python.cpp:64-67 | Not recording, no callback, identifier -1 |
| RecorderHandle.PythonHandle.RecorderStart | python/src/oculus_python.cpp:103-111 | While recording nothing happens; if the file cannot be opened no callback is added; otherwise a new log and one more callback under a free identifier |
| RecorderHandle.PythonHandle.RecorderStop | python/src/oculus_python.cpp:112-117 | The file is closed, and the entry under the remembered identifier removed only if that is positive |
| RecorderHandle.PythonHandle.RecorderCallback | python/src/oculus_python.cpp:118-120 | The records of the message are appended once, if the file is open |
| RecorderHandle.OneTapWhileRecording | python/src/oculus_python.cpp:103-117 | Over every proper run the table holds exactly one recorder callback while recording and none otherwise |
| RecorderHandle.StopUndoesStartIffOthersPresent | python/src/oculus_python.cpp:103-117 | A start and stop leave the table as it was iff it was not empty; else the recorder's entry stays behind |
| RecorderHandle.SecondRecordingWritesTwice | python/src/oculus_python.cpp:103-117 | Start, stop, start on a new handle: two recorder callbacks |
| RecorderHandle.StopTwiceRemovesAnothersCallback | python/src/oculus_python.cpp:112-117 | A second stop removes the callback of whoever got the identifier meanwhile |
| RecorderHandle.StopRemovesOthersIff | python/src/oculus_python.cpp:112-117 | A stop takes somebody else's callback away iff nothing is being recorded and the remembered identifier is positive and in use |
| RecorderHandle.DispatchCallsEachTap | include/oculus_driver/CallbackQueue.h:135-142 | A dispatch in any order calls the recorder as often as it is in the table |
| RecorderHandle.WrittenOncePerTap | python/src/oculus_python.cpp:118-120 | A good open file gets the records of a message once for each recorder callback |
| RecorderHandle.FileIsLogOfArrivals | python/src/oculus_python.cpp:103-120 | While recording, whatever users add, remove or start meanwhile, the file is at every moment the log of the messages that have arrived |
| RecorderHandle.SessionReadsBack | python/src/oculus_python.cpp:103-120 | From start to stop: the file left is read back as exactly the messages that arrived in between, and the handle is clean again |
| ReceivedLog.ReceivedIsReadBack | src/SonarClient.cpp:186-250 | A stream received while recording: reading the file gives exactly the frames of the stream, byte for byte, in order, with the times of their headers |
| ImageLayout.DeducedTilesIff | include/oculus_driver/OculusMessage.h:216-229 | A deduced sample size accounts for the whole image iff the gain subtraction does not wrap and the size fits 8 bits |
| ImageLayout.EndlessCalls | include/oculus_driver/OculusMessage.h:285-311 | For an unknown data size whose lines divide the image the two functions come back from no depth of nesting |
| ImageLayout.Version2EndsIff | include/oculus_driver/OculusMessage.h:285-311 | They come back iff the data size is one of the four known ones or the lines do not divide the image |
| ImageLayout.KnownSizes | include/oculus_driver/OculusMessage.h:211-215 | The four known data sizes are 8, 16, 24 and 32 bits in both versions |
| ImageLayout.Version2GainsRecognised | include/oculus_driver/OculusMessage.h:285-287 | For them version 2 tells rightly, for every image made of lines, whether gains were sent |
| ImageLayout.SlotCovers | python/src/message_utils.h:60-101 | Every byte of the image belongs to a gain or a sample at the address of the Python views |
| ImageLayout.SlotsDisjoint | python/src/message_utils.h:60-101 | No byte belongs to two of them, and each lies inside the image |
| ImageLayout.DeducedImageIsTiled | include/oculus_driver/OculusMessage.h:141-143 | With a good deduced size the gains and samples are exactly the bytes of the image |
| ImageLayout.RawViewStepIff | python/src/message_utils.h:36-58 | The raw view steps from line to line as the message does iff its 16-bit width does not wrap |
| ImageLayout.InBoundsIff | include/oculus_driver/helpers.h:127-136 | With gains the written index stays inside the array iff there is one beam or there are no more beams than ranges |
| ImageLayout.InjectiveIff | include/oculus_driver/helpers.h:127-136 | It is injective iff there is one beam or there are no more ranges than beams |
| ImageLayout.PermutationIff | include/oculus_driver/helpers.h:127-136 | It is a permutation of the array iff there is one beam or the two numbers are equal |
| ImageLayout.RowMajorIffOneBeam | include/oculus_driver/helpers.h:107-118 | It is the documented row-major index iff there is one beam |
| ImageLayout.OverwrittenUnlessSurvives | include/oculus_driver/helpers.h:129-136 | A sample is overwritten by a later line exactly if one lies as many lines further on as there are beams and it is not of the first beam |
| ImageLayout.NoClobber | include/oculus_driver/helpers.h:129-136 | The only way two lines meet in a cell |
| ImageLayout.WriteRow | include/oculus_driver/helpers.h:129-136 | The pointer walk along a line puts each sample, at the address of the Python view and compensated by the gain of its line, into its cell; it leaves the array iff some index does |
| ImageLayout.WriteCompensated | include/oculus_driver/helpers.h:127-136 | In an array of any size the walk over all lines stays inside iff its last index does; then every sample not overwritten is in its cell |
| ImageLayout.LastInsideIff | include/oculus_driver/helpers.h:111-112 | In an array of exactly the documented size the last index is inside iff there are at most as many beams as ranges, one beam or no line |
| ImageLayout.CopySamples | include/oculus_driver/helpers.h:138-143 | Without gains every sample at the address of the Python view is in its documented row-major cell, and the rest of a larger array is untouched |
| ImageLayout.PingDataToArray | include/oculus_driver/helpers.h:120-165 | In the flags and bytes themselves: without bit 2 cell nBeams * h + w holds sample nBeams * h + w; with it cell nBeams * w + h holds sample w of line h times what the gain word makes, unless a later line overwrites it; bit 1 means two little-endian bytes a sample; in bounds iff the last index is |
| ImageLayout.AskedFlagsBringGains | src/SonarDriver.cpp:92 | Whatever flags a request has, it goes out with the gains switched on and the other flags as they are, so the image it brings is compensated |
| BearingLut.BuildLut | include/oculus_driver/helpers.h:252-266 | Each entry is the first index whose bearing is nearest to the linear angle of the entry; the table of a single bearing is 0 |
| BearingLut.AnglesSpreadEvenly | include/oculus_driver/helpers.h:254-255 | The linear angles run from the first bearing to the last in equal steps |
| BearingLut.NearestMonotone | include/oculus_driver/helpers.h:252-266 | For sorted bearings the first nearest index grows with the angle |
| BearingLut.LutMonotone | include/oculus_driver/helpers.h:252-266 | For sorted bearings the table is monotone |
| BearingLut.LookupsBracket | include/oculus_driver/helpers.h:287-289 | The entry for a bearing is the last whose linear angle does not lie beyond it; the line for a range the last whose distance does not |
| BearingLut.SymmetricFanInBounds | include/oculus_driver/helpers.h:280-290 | For a symmetric fan every accepted bearing and range is looked up inside the table, the ranges and the sample array |
| BearingLut.AllInTableIffNearlySymmetric | include/oculus_driver/helpers.h:280-288 | Every bearing that passes the renderer's test is looked up inside the table iff the fan is off centre by less than a step |

## Left out

- Sockets, Boost.Asio, UDP, timers, thread creation and `AsyncService`: only the events they cause
  appear. A status datagram, a tick, a connect and a read complete at arbitrary moments.
- IEEE arithmetic: reals stand for floats in configurations and angles; doubles in logs are 8 opaque
  bytes. `to_seconds<double>`, the conversion of an item date to nanoseconds and the inverse square
  root of a gain are parameters of the theorems.
- Alignment of the log structures other than the natural one of a 64-bit platform (48 and 40 bytes);
  their padding is written as zero.
- File names and errors of the disk during a write; a `Recorder` writes one file at a time. The
  `force` argument of `open` is ignored, as the code does.
- OculusMessage.Message.Create: a buffer shorter than a header is excluded; the code reads outside of it.
- LogWriter.Recorder.WriteItem: data shorter than the announced payload is excluded; the code reads
  outside of it.
- LogReader.FileReader.ReadNextMessage: where the code reads or writes outside a buffer, for a sonar
  payload below 16 bytes or a stamp behind a sonar item that is not 16 bytes long, the answer is
  `Undefined` and nothing more is said; `LogTheorems.UndefinedIffUnreadable` has the logs. A stamp item
  of another size counts as such also if it is cut so short that the code would raise its exception.
- LogReader.FileReader.Open: the file header member that a rejected or short file leaves behind is not
  described; closing a reader is not modelled.
- CallbackTable.CallbackQueue.Call: callbacks that add or remove callbacks, or register single shots,
  while they run are not part of a dispatch; in the client they are events of their own.
- SingleShots.StepInv: waits without a timeout are the runs in which that thread never times out; the
  regular callbacks have a mutex of their own, held for whole operations, and do not appear.
- SonarClients.SonarClient.ConnectCallback: the exception of a failed connect is kept as a flag. In the
  driver it leaves the event loop and ends its thread; here the other handlers go on. The call of
  `on_connect` is `SonarDrivers.SonarDriver.OnConnect`.
- SonarClients.SonarClient.StatusReceived: the address and port of the sonar are one number, without the
  conversion through a string.
- SonarClients.SonarClient.constructor: fewer than 2^31 - 1 status callbacks are assumed from here on.
- ConnectionTheorems.SingleLoop: names conditions on the environment that are sufficient; the exact
  ones, on runs, are in `ConnectionTheorems.SafeIffSound` and `ConnectionTheorems.SingleLoopIff`.
- Framing.FeedDeliversFrames: each read is given exactly what it asks for, as on a connection that stays
  up; short reads are in `ConnectionTheorems`.
- SonarDrivers.SonarDriver.HandleMessage: the conversion of a double to a real is a parameter. The calls
  of the message, ping and dummy callbacks are dispatches of `CallbackTable.CallbackQueue.Call`.
- SonarDrivers.SonarDriver.RequestPingConfig: the environment is any finite list of rounds; a loop that
  is still going at its end is `StillAsking`. How many bytes a send gets out is a parameter. The setter
  that a round leaves registered when it times out (src/SonarDriver.cpp:75-86) is not part of the later
  rounds, although by `SingleShots.RegisteredRunsInDispatch` the next message does run it, on a
  local variable that no longer exists.
- SendRaces.RateSavedIff: one sender and one handler at a time, with reads and writes of the shared
  members in one piece. Two sends at once, and torn accesses, are not modelled.
- SonarDrivers.UnannouncedDrift: the unqualified `abs` in `utils.h` and `helpers.h` is taken as the
  floating-point overload.
- RecorderHandle.PythonHandle.RecorderStart: fewer than 2^30 callbacks, so that the conversion of the
  identifier to `int` does not change it.
- ImageLayout.PingDataToArray: an image that does not fit in its message, or an array below the documented
  size, is excluded; the code checks neither. It stops at the first write outside the array, where the
  code goes on with undefined behaviour. Samples of four bytes are read by the Python views only, and
  for samples of three bytes these views are none.
- ImageLayout.DeducedTilesIff: an image of unknown data size without ranges, or without beams if its lines
  divide it, is excluded; the code divides by zero.
- ImageLayout.Version2EndsIff: the product in `has_gains`, which the code computes in `int`, is taken
  without overflow.
- BearingLut.SymmetricFanInBounds: the pixel loop, sines and arc tangents around the lookups are left
  out; bearing and range of a pixel are arbitrary reals that pass the renderer's test.
- Printing, `write_pgm`, the pybind11 class tables, the example scripts, `rtac_helpers.h` and the
  undocumented message types: output, bindings or structures that no logic reads.
