# A verified model of Pinger

Pinger keeps mail sessions open on behalf of phones. A phone's web server asks a backend to start, stop or
defer a session; the session polls a mail server, over IMAP or ActiveSync, and pushes a notification when
mail arrives. Device records live in MySQL behind an object mapper with optimistic locking, and transfers to
S3 are cut into parts. This project models the parts of that system where a loop, an interleaving or an
in-place update has to agree with something simple, and proves that it does.

| module | models |
|---|---|
| `Fsm` | the state machine library: event tables, callbacks, asynchronous transitions |
| `Session` | one mail session: its machine, channels, timers, status, rearming |
| `Keys`, `PollMap`, `Commands` | session keys and token messages; the map of sessions under concurrent requests; its lock and the sessions' command channels |
| `ReadBuffer`, `LittleEndian`, `Packets`, `LengthEncoding` | the MySQL driver's buffer, packets and row encoding |
| `Escape`, `Interpolate`, `Lexing`, `Dsn` | the driver's literals, parameter interpolation, how the server's lexer sees the result, and data source names |
| `Locking`, `Gorp`, `Store` | the object mapper's version column: the locking protocol, the statements, the operations |
| `Getter`, `Putter` | parallel download and multipart upload |
| `Imap` | command tags, responses, and what is kept from EXAMINE through IDLE or STATUS polls |
| `Common`, `Text` | shared helpers |

What other threads, the network, clocks and servers do is a parameter: the order of inputs to a session, the
steps of an interleaving, the pieces a socket delivers, the order in which workers finish, the lines a mail
server sends. Statements hold for all of them. Code that updates fields or arrays in place is a class whose
methods are proved against functions; the properties are proved about those functions.

## What does not hold, and exactly when it does

- A payload whose length is a multiple of 2^24-1 is written with an empty last frame, as the MySQL protocol
  asks, but `readPacket` refuses an empty frame: `Packets.FramesReadBackIff`.
- Long data is sent in pieces of `maxPacketAllowed` - 8 bytes, so the loop makes progress only above 8:
  `Packets.LongDataProgressIff`. A server gets the argument exactly when no packet has a length that is a multiple
  of 2^24-1: `Packets.LongDataArrivesIff`.
- A literal reads back only if the text after it does not begin with a quote: `Escape.LiteralReadsBackIff`. In
  an interpolated query an argument can run into the text around it: inside quotes or a comment, after a word,
  a number, '@' or a letter such as x that introduces a literal, or before a character that goes on with it.
  Every argument is a token of its own with its value, if and only if the query avoids these, and no float
  prints as something that is no number: `Lexing.AllDataIff`. Failing inputs are `Lexing.IntroducerRunsIn` and
  `Lexing.DigitRunsIn`.
- With too few arguments interpolation panics, exactly when all of them are supported and fit:
  `Interpolate.LoopTextIff`.
- A header that declares a string whose end is no int64 makes the slice expression panic, whatever follows it:
  `LengthEncoding.HeaderPanicsIff`.
- An update may overwrite a row its copy never saw. Over all interleavings this happens exactly when the copy
  does not come from the row, or the row was inserted anew (or overwritten from version zero) since, or the
  copy is at version zero: `Locking.OverwritesUnseenIff`. Instances are `Locking.VersionZeroOverwrites`,
  `Locking.FailedInsertOverwritesIff` and `Locking.ReinsertionLosesUpdate`.
- A stop request does not stick while a session for the same key is still being created:
  `PollMap.StopSticksIff`. A rearmed session cannot be deferred: `PollMap.BackendPolling.DeferSession`.
- A start request sends its stop command while it holds the lock of the session map. The lock is never released
  exactly when the old session's loop has returned with ten commands left in its channel:
  `Commands.ReleasesIff`, `Commands.StuckForever`; such a run exists: `Commands.JamIsReachable`.
- Giving up a chunk closes a channel, and closing it again panics. A worker that gives up goes on with the next
  chunk, so a download can panic exactly when the object has two chunks or more, whatever the number of
  workers: `Getter.PanicReachableIff`, with the run of `Getter.GivesUpTwice`.
- The comment on `growPartSize` promises growth unless the remaining parts are large enough; rounding makes
  it refuse in one more case: `Putter.RefusedThoughShortIff`. Between full parts that case never arises:
  `Putter.RefusalBetweenPartsIsSafe`. It can arise on the closing flush of a partial part, after which none
  follows: `Putter.ClosingFlushRefuses`.
- IMAP keywords are case-insensitive (section 9 of RFC 3501), but the client compares them exactly. It follows the
  mailbox exactly when every response that changes its size has its keyword in upper case: `Imap.FollowsIff`. It
  misses "* 5 exists": `Imap.LowerCaseMissed`. The same holds of UIDNEXT in EXAMINE: `Imap.ExamineLearnsUid`.
- Reading responses panics exactly when a line that begins with "*" and has too few words comes up to the first
  final one: `Imap.ReadPanicsIff`.
- The final response to a command is recognised by a prefix, so tag 1 would also accept tag 12:
  `Imap.CompletionMistakenIff`. Tags only grow, and a late completion of an earlier command is never mistaken:
  `Imap.LateCompletionIgnored`.
- The final status of a session is always Stopped without error, also after an error of the poll, because the
  deferred function of `start` sets it last: `Session.MailClient.Loop`. The channel that stops the poll stays open
  exactly when the run ends with a failed push while pinging: `Session.LeftOpenIff`.

## Model

| member | source | states |
|---|---|---|
| `Fsm.EventMoves` | Godeps/_workspace/src/github.com/looplab/fsm/fsm.go:225-284 | for any table and any callback behaviour, the state changes exactly on success and along the table's edge; every refusal, cancellation and no-transition result leaves the machine as it was; internal errors never occur |
| `Fsm.CallbackOrder` | Godeps/_workspace/src/github.com/looplab/fsm/fsm.go:288-348 | a completed event calls every registered callback once, in the documented order; a cancelled or held one calls an initial part; a self-loop skips leave and enter |
| `Fsm.CompletedCalls` | Godeps/_workspace/src/github.com/looplab/fsm/fsm.go:225-348 | a completed event calls exactly the callbacks registered under the documented eight names, in the documented order |
| `Fsm.OutcomeIff` | Godeps/_workspace/src/github.com/looplab/fsm/fsm.go:225-331 | for any table and callbacks, each outcome in terms of what the registered callbacks ask for: cancelled exactly if the first before-callback or, on a move, leave-callback that stops the event cancels it; held exactly if that one asks for it without cancelling; and a transition is pending exactly then |
| `Fsm.ErrorReported` | Godeps/_workspace/src/github.com/looplab/fsm/fsm.go:225-271 | the error returned is the last one a callback that was called has set |
| `Fsm.FireOrder` | Godeps/_workspace/src/github.com/looplab/fsm/fsm.go:288-348 | dispatching a list of slots calls a prefix of what is registered, all of it unless one stops it, and final slots never stop |
| `Fsm.RunFollowsEdges` | Godeps/_workspace/src/github.com/looplab/fsm/fsm.go:225-284 | in any sequence of events and completions each move of the state is an edge of the table |
| `Fsm.AsyncHolds` | Godeps/_workspace/src/github.com/looplab/fsm/fsm.go:225-284 | after an asynchronous result every event is refused and changes nothing, until Transition completes exactly the held edge and frees the machine |
| `Fsm.TransitionCalls` | Godeps/_workspace/src/github.com/looplab/fsm/fsm.go:277-284 | completing a held event calls the enter and after callbacks of its edge, and is refused exactly when none is held |
| `Fsm.BuildTable` | Godeps/_workspace/src/github.com/looplab/fsm/fsm.go:120-129 | the loop yields, for each event and source, the destination of the last definition, and the sets of states and event names |
| `Fsm.AddEvent` | Godeps/_workspace/src/github.com/looplab/fsm/fsm.go:123-127 | the inner loop defines exactly the event's sources and overrides earlier definitions only there |
| `Fsm.FileCallbacks` | Godeps/_workspace/src/github.com/looplab/fsm/fsm.go:132-181 | every filed callback comes from a name that parses to its key and every parsing name is filed, whatever the iteration order |
| `Fsm.PrefixedNames` | Godeps/_workspace/src/github.com/looplab/fsm/fsm.go:136-167 | which callback each prefixed name denotes, for any set of states and events |
| `Fsm.ShortNames` | Godeps/_workspace/src/github.com/looplab/fsm/fsm.go:168-175 | a name without prefix is the enter callback of a state or else the after callback of an event |
| `Fsm.FSM.constructor` | Godeps/_workspace/src/github.com/looplab/fsm/fsm.go:113-184 | a new machine is in its initial state, with the table and callbacks the descriptions define |
| `Fsm.FSM.Event` | Godeps/_workspace/src/github.com/looplab/fsm/fsm.go:225-271 | the object's new state, result and callback calls are those of the specified step |
| `Fsm.FSM.Transition` | Godeps/_workspace/src/github.com/looplab/fsm/fsm.go:277-284 | completes the pending edge if there is one, and reports when there is none |
| `Fsm.FSM.Dispatch` | Godeps/_workspace/src/github.com/looplab/fsm/fsm.go:288-348 | calls the registered callbacks of a list of slots in order, up to the first that cancels or holds |
| `Session.TableIsSession` | Pinger/mailClient.go:248-264 | the event list of initFsm defines exactly the edges init, deferred, pinging and stopped allow |
| `Session.CallbacksAreSession` | Pinger/mailClient.go:265-276 | the callback map of initFsm registers exactly the leave and enter callbacks of its states, and no other slot |
| `Session.AllowedEventSucceeds` | Pinger/mailClient.go:248-326 | on the session's machine an allowed event never returns an error and calls the leave callback of the old state, then the enter callback of the new one |
| `Session.AllowedRaise` | Pinger/mailClient.go:278-326 | what those callbacks do to status, timers and the poll channel |
| `Session.RunKeepsInv` | Pinger/mailClient.go:358-495 | for every order of ticks, results and commands the rearming count stays within 0 to 3, and is zero for protocols other than IMAP |
| `Session.MailsBounded` | Pinger/mailClient.go:386-437 | a run with d defers handles at most 3d + 4 new-mail results, a run of another protocol at most one |
| `Session.BoundIsReached` | Pinger/mailClient.go:386-437 | for every d some run reaches that bound |
| `Session.FirstResultPushes` | Pinger/mailClient.go:391-410 | the first new-mail result after the start or after a defer always attempts a push |
| `Session.EndedStays` | Pinger/mailClient.go:358-495 | once the loop has returned nothing changes |
| `Session.RunEndsIff` | Pinger/mailClient.go:358-495 | for every run, in terms of its inputs alone: the session has ended exactly when some input was a stop command, a max-poll tick, a re-register, a poll error, a failed push that was due and not ignored, or new mail with no rearm left; a running one polls exactly when the last input other than an unknown command was a tick of the defer timer; the rearming count is the number of mails since the last defer |
| `Session.StopAllClosedIff` | Pinger/mailClient.go:470-476 | in every run the stop channel is closed exactly when a stop command came while the session ran |
| `Session.MailsAndPushesCounted` | Pinger/mailClient.go:386-437 | in every run the new-mail results and the pushes attempted are exactly those its inputs call for |
| `Session.RunSession` | Pinger/mailClient.go:333-496 | the object end to end: whether its loop still runs, what status it reports and whether its stop channel is closed, in terms of the inputs alone |
| `Session.LeftOpenIff` | Pinger/mailClient.go:391-404 | in every run the poll channel is left open exactly when some input was a push attempted, failed and not ignored while polling |
| `Session.LeavesOpenLast` | Pinger/mailClient.go:391-404 | that push is the last input the session handles |
| `Session.MailClient.constructor` | Pinger/mailClient.go:333-357 | a new session is deferred, with its timers armed and nothing panicked |
| `Session.MailClient.Raise` | Pinger/mailClient.go:248-326 | raising an event moves the machine and applies its callbacks, panicking exactly if the event fails |
| `Session.MailClient.RaiseStopped` | Pinger/mailClient.go:307-322 | stopping from either loop state closes the poll channel exactly when pinging, and never fails |
| `Session.MailClient.RaiseDeferred` | Pinger/mailClient.go:278-292 | deferring arms the defer timer, and the poll timer the first time |
| `Session.MailClient.Handle` | Pinger/mailClient.go:358-495 | one turn of the select loop is one step of the simple machine, whose every run is pinned to its inputs by the rows above; the session never panics, the poll channel is open exactly when pinging, and the status matches the machine |
| `Session.MailClient.HandleNewMail` | Pinger/mailClient.go:388-437 | a new-mail result pushes, stops and rearms or ends as the simple machine says, in every combination of timing, push outcome and configuration |
| `Session.MailClient.HandleDefer` | Pinger/mailClient.go:478-488 | a defer command resets the rearming count and waits again, from either state |
| `Session.MailClient.HandleDeferTick` | Pinger/mailClient.go:378-384 | the defer timer starts the poll |
| `Session.MailClient.StopAndRearm` | Pinger/mailClient.go:422-437 | an IMAP session rearms while its count is below three, any other ends |
| `Session.MailClient.Abort` | Pinger/mailClient.go:394-404 | returning after a failed push ends the session and leaves the poll channel open exactly when it was pinging |
| `Session.MailClient.Loop` | Pinger/mailClient.go:333-496 | the object's loop over any inputs is the run of the simple machine; nothing ever panics, no channel is closed twice, the invariant holds at every loop head, and once the loop has returned, for whatever reason, the status is Stopped without error |
| `Session.MailClient.Status` | Pinger/mailClient.go:208-213 | at every loop head, and once the loop has returned, what a session reports is the phase of the simple machine, and no error |
| `Keys.PollKeysEqualIff` | Pinger/rpc.go:196-198 | on ids the validators accept, two poll keys are equal exactly when user, context and device are, although a user id may hold the separator |
| `Keys.TokenMessagesEqualIff` | Pinger/server_config.go:141-144 | the same for the message a token signs |
| `Keys.ValidCharacters` | main/pinger-webserver/devices.go:136-157 | a valid context or device id holds neither separator character |
| `Keys.UserIdMayHoldSeparators` | main/pinger-webserver/devices.go:123-134 | some valid user id holds both separators |
| `Keys.UnvalidatedKeysCollide` | Pinger/rpc.go:297-299 | without validation two different triples share a key |
| `PollMap.EveryRunKeepsInv` | Pinger/rpc.go:203-345 | in every interleaving over any keys and clients each created client is waiting, registered once under its own key, or retired with exactly one stop; none is sent two |
| `PollMap.EveryStartCreates` | Pinger/rpc.go:203-287 | in every interleaving, for every key, the start requests are as many as the sessions created, the creations failed and the creators still at work |
| `PollMap.StartRegisters` | Pinger/rpc.go:203-287 | from every reachable state some continuation of a start request, without another one, registers under its key a client made after the request |
| `PollMap.StartStopsOld` | Pinger/rpc.go:231-263 | a start request stops the session that was registered, exactly once, and the key is free after it |
| `PollMap.EndedIsNotStopped` | Pinger/mailClient.go:503-518 | once a session has cleaned up, it is sent no command in any continuation without a start request for its key |
| `PollMap.RegisterKeepsInv` | Pinger/rpc.go:277-286 | registering a created client keeps that, also when another one came first |
| `PollMap.StartKeepsInv` | Pinger/rpc.go:217-265 | a start request keeps it: the old session is stopped and leaves the map in the same step |
| `PollMap.StopKeepsInv` | Pinger/rpc.go:326-345 | a stop request keeps it |
| `PollMap.StopSticksIff` | Pinger/rpc.go:314-345 | after a stop the key has no session until the next start, in every continuation, exactly when no creator for it was in flight |
| `PollMap.CreatorRegisters` | Pinger/rpc.go:269-287 | a creator in flight can still register its client after a stop |
| `PollMap.OtherSessionsUntouched` | Pinger/rpc.go:203-345 | in every run whose start and stop requests carry other valid ids, however creators, stops and ending sessions interleave, a session stays registered and is not stopped |
| `PollMap.BackendPolling.RPCStartPoll` | Pinger/rpc.go:203-267 | the request is the step Start, which launches a creator and stops the old session as the rows above say; the reply is a warning exactly for a session in error |
| `PollMap.BackendPolling.RegisterSession` | Pinger/rpc.go:269-287 | the locked part of the creator is the step Register; a client that lost the race is stopped unless already cleaned up |
| `PollMap.BackendPolling.RPCStopPoll` | Pinger/rpc.go:314-345 | the request is the step Stop, with an error exactly for an unknown key |
| `PollMap.BackendPolling.RPCDeferPoll` | Pinger/rpc.go:368-404 | for any reported status and error, exactly a registered session without error that is pinging or deferred is deferred, and the map stays |
| `PollMap.BackendPolling.DeferSession` | Pinger/rpc.go:381-403 | given the sessions of the registered clients, the one under the key is deferred exactly while it polls or waits unrearmed; a rearmed one is refused, and none reports an error |
| `Commands.EveryRunKeepsInv` | Pinger/rpc.go:203-345 | in every interleaving channels hold at most ten commands and a request that holds the lock holds it for a registered session |
| `Commands.ReleasesIff` | Pinger/rpc.go:249-263 | a start request that holds the lock can release it exactly when its session's channel has room or the session's loop still runs |
| `Commands.StuckForever` | Pinger/mailClient.go:498-501 | otherwise, in every continuation, the lock is never released and no request reaches the map again |
| `Commands.JamIsReachable` | Pinger/mailClient.go:358-501 | a run from a fresh server leads there: ten commands queued, the loop returns, a start request comes |
| `ReadBuffer.Buffer.constructor` | Godeps/_workspace/src/github.com/Go-SQL-Driver/MySQL/buffer.go:27-33 | a new buffer stands where its reader stands and holds nothing |
| `ReadBuffer.Buffer.Compact` | Godeps/_workspace/src/github.com/Go-SQL-Driver/MySQL/buffer.go:39-42 | moving the unread bytes to the front of the same array keeps what the buffer stands for |
| `ReadBuffer.Buffer.Grow` | Godeps/_workspace/src/github.com/Go-SQL-Driver/MySQL/buffer.go:44-52 | so does moving to a larger array, which then has room for the request |
| `ReadBuffer.Buffer.Fill` | Godeps/_workspace/src/github.com/Go-SQL-Driver/MySQL/buffer.go:36-79 | on success at least the requested bytes of the stream are held, whatever sizes the reader returns; it fails only after a reader error, and after EOF only if too few bytes came |
| `ReadBuffer.Buffer.ReadNext` | Godeps/_workspace/src/github.com/Go-SQL-Driver/MySQL/buffer.go:83-95 | the slice handed out is the next bytes of the stream, within the array's bounds |
| `ReadBuffer.Buffer.TakeBuffer` | Godeps/_workspace/src/github.com/Go-SQL-Driver/MySQL/buffer.go:101-116 | refused exactly while unread bytes remain; otherwise a slice of the requested size |
| `ReadBuffer.Buffer.ReadAll` | Godeps/_workspace/src/github.com/Go-SQL-Driver/MySQL/buffer.go:36-95 | over any sequence of reads the slices concatenate to the stream from where it stood |
| `LittleEndian.DecodeEncode` | Godeps/_workspace/src/github.com/Go-SQL-Driver/MySQL/utils.go:773-814 | a number that fits is decoded back from its little-endian bytes |
| `LittleEndian.EncodeDecode` | Godeps/_workspace/src/github.com/Go-SQL-Driver/MySQL/utils.go:773-814 | any bytes are given back by the number they stand for |
| `Packets.FramesReadBackIff` | Godeps/_workspace/src/github.com/Go-SQL-Driver/MySQL/packets.go:26-122 | whatever follows on the stream, a written payload is read back exactly and the sequence numbers agree, if and only if its length is no multiple of 2^24-1; otherwise it is refused |
| `Packets.AcceptedIff` | Godeps/_workspace/src/github.com/Go-SQL-Driver/MySQL/packets.go:26-122 | on every stream, a payload is handed out, with what follows it, if and only if the stream begins with the frames of that payload under the expected number and its last frame is not empty |
| `Packets.WrongNumberRefused` | Godeps/_workspace/src/github.com/Go-SQL-Driver/MySQL/packets.go:46-53 | frames that begin with another number than the expected one are refused, and the error tells on which side it lies |
| `Packets.HeaderBytes` | Godeps/_workspace/src/github.com/Go-SQL-Driver/MySQL/packets.go:88-100 | the header is the length in three bytes, least significant first, and the sequence number |
| `Packets.FullFrame` | Godeps/_workspace/src/github.com/Go-SQL-Driver/MySQL/packets.go:56-76 | a full frame contributes its bytes and reading goes on with the next sequence number |
| `Packets.LastFrame` | Godeps/_workspace/src/github.com/Go-SQL-Driver/MySQL/packets.go:64-76 | a shorter frame completes the payload, unless it is empty |
| `Packets.CutConcat` | Godeps/_workspace/src/github.com/Go-SQL-Driver/MySQL/packets.go:724-751 | the pieces of a long argument concatenate to it, and each is non-empty and within the limit |
| `Packets.LongHeaderReads` | Godeps/_workspace/src/github.com/Go-SQL-Driver/MySQL/packets.go:730-741 | a server reads command, statement id, parameter id and data from the packet of a piece |
| `Packets.LongWireReadsIff` | Godeps/_workspace/src/github.com/Go-SQL-Driver/MySQL/packets.go:707-756 | for any pieces a server that reads packet by packet gets each of them under the same ids, exactly when no packet has a length it cannot read |
| `Packets.LongDataArrivesIff` | Godeps/_workspace/src/github.com/Go-SQL-Driver/MySQL/packets.go:707-756 | for every argument, piece size and ids, the server gets an argument and it is the one sent, under its statement and parameter, if and only if neither the full pieces nor the last one makes a packet whose length is a multiple of 2^24-1 |
| `Packets.LongDataProgressIff` | Godeps/_workspace/src/github.com/Go-SQL-Driver/MySQL/packets.go:708-727 | every turn of the long-data loop, which sends a piece of this size, makes progress exactly when packets may be longer than 8 bytes |
| `Packets.Conn.WriteHeader` | Godeps/_workspace/src/github.com/Go-SQL-Driver/MySQL/packets.go:88-100 | the four header bytes are written in place and nothing else |
| `Packets.Conn.SendFrame` | Godeps/_workspace/src/github.com/Go-SQL-Driver/MySQL/packets.go:87-112 | one frame of what is left goes out; overwriting sent bytes for its header leaves the rest of the payload intact |
| `Packets.Conn.WritePacket` | Godeps/_workspace/src/github.com/Go-SQL-Driver/MySQL/packets.go:80-122 | a payload within the limit goes out as the specified frames and advances the sequence by their number; an oversized one changes nothing; bytes outside the slice are never touched |
| `Packets.Conn.SendFrames` | Godeps/_workspace/src/github.com/Go-SQL-Driver/MySQL/packets.go:87-122 | the loop sends the whole payload frame by frame although it overwrites its own array |
| `Packets.Conn.ReadHeader` | Godeps/_workspace/src/github.com/Go-SQL-Driver/MySQL/packets.go:29-47 | the next four bytes of the stream as a length and a sequence number |
| `Packets.Conn.ReadFrame` | Godeps/_workspace/src/github.com/Go-SQL-Driver/MySQL/packets.go:29-62 | one frame of the stream, or the refusal the stream deserves |
| `Packets.Conn.ReadPacket` | Godeps/_workspace/src/github.com/Go-SQL-Driver/MySQL/packets.go:26-77 | what is returned is what the stream parses to, as a slice or a copy; each error matches its cause, and an EOF only fails a packet that was not delivered whole |
| `Packets.Conn.WriteCommandLongData` | Godeps/_workspace/src/github.com/Go-SQL-Driver/MySQL/packets.go:707-756 | it terminates, and sends the pieces of the argument in order, each under the same statement and parameter id, although headers are written over the shared array; that a server reads the argument back from these bytes is `Packets.LongDataArrivesIff` |
| `Packets.Conn.SendPiece` | Godeps/_workspace/src/github.com/Go-SQL-Driver/MySQL/packets.go:724-749 | one turn sends the next piece and leaves the remaining ones intact |
| `Packets.Receive` | Godeps/_workspace/src/github.com/Go-SQL-Driver/MySQL/packets.go:26-77 | reading a stream that begins with a payload's frames gives that payload, for any network fragmentation, if its bytes are delivered without an error other than EOF |
| `Packets.SendAndReceive` | Godeps/_workspace/src/github.com/Go-SQL-Driver/MySQL/packets.go:26-122 | end to end: if all bytes of the packet are delivered without an error other than EOF, what is read is what was sent and the counters agree, exactly for lengths that are no multiple of 2^24-1 |
| `LengthEncoding.IntReadsBack` | Godeps/_workspace/src/github.com/Go-SQL-Driver/MySQL/utils.go:773-814 | every uint64 is read back from its encoding, whatever follows, with the exact byte count |
| `LengthEncoding.DocumentedForm` | Godeps/_workspace/src/github.com/Go-SQL-Driver/MySQL/utils.go:773-814 | the bytes of the encoding are those of the protocol documentation, and NULL is the byte 0xfb |
| `LengthEncoding.HeaderPanicsIff` | Godeps/_workspace/src/github.com/Go-SQL-Driver/MySQL/utils.go:738-752 | for every declared length and whatever follows, reading panics exactly when the end of the string is no int64, and otherwise is refused exactly when the string is cut short |
| `LengthEncoding.ColumnReadsBackIff` | Godeps/_workspace/src/github.com/Go-SQL-Driver/MySQL/utils.go:738-752 | NULL and every string are read back, whatever follows, exactly when the encoded length is an int64 |
| `LengthEncoding.RowReadsBack` | Godeps/_workspace/src/github.com/Go-SQL-Driver/MySQL/packets.go:615-651 | any list of columns is recovered column by column |
| `LengthEncoding.RowsAreNotMistaken` | Godeps/_workspace/src/github.com/Go-SQL-Driver/MySQL/packets.go:604-612 | no row with at least one column is taken for an EOF or error packet |
| `LengthEncoding.ReadRow` | Godeps/_workspace/src/github.com/Go-SQL-Driver/MySQL/packets.go:596-652 | EOF and error packets are told apart from rows, and a row's columns are what the encoding says |
| `LengthEncoding.ReadDest` | Godeps/_workspace/src/github.com/Go-SQL-Driver/MySQL/packets.go:615-651 | the loop over the columns computes the specified row |
| `LengthEncoding.ReceiveRow` | Godeps/_workspace/src/github.com/Go-SQL-Driver/MySQL/packets.go:596-652 | a row a server sends is the row the caller gets |
| `Escape.EscapedReads` | Godeps/_workspace/src/github.com/Go-SQL-Driver/MySQL/utils.go:834-875 | in both modes each escaped byte reads back as that byte |
| `Escape.EscapeAllReads` | Godeps/_workspace/src/github.com/Go-SQL-Driver/MySQL/utils.go:829-963 | so does every byte string, and reading goes on behind it |
| `Escape.LiteralReadsBackIff` | Godeps/_workspace/src/github.com/Go-SQL-Driver/MySQL/utils.go:829-963 | between quotes it reads back as that string and ends at the closing quote, exactly when no quote follows |
| `Escape.EscapedIsClean` | Godeps/_workspace/src/github.com/Go-SQL-Driver/MySQL/utils.go:834-875 | with backslashes the escaped text of any bytes holds no NUL, newline, carriage return or Ctrl-Z |
| `Escape.OnlyQuotesDoubled` | Godeps/_workspace/src/github.com/Go-SQL-Driver/MySQL/utils.go:927-943 | with doubled quotes bytes without a quote are left as they are |
| `Escape.ReserveBuffer` | Godeps/_workspace/src/github.com/Go-SQL-Driver/MySQL/utils.go:816-827 | room is made, in place when the capacity allows, and the contents are kept |
| `Escape.EscapeBytes` | Godeps/_workspace/src/github.com/Go-SQL-Driver/MySQL/utils.go:829-943 | appends the escaped form of a byte slice, inside the reserved space, in both modes, also for a slice of the destination array that lies apart from what is written |
| `Escape.EscapeString` | Godeps/_workspace/src/github.com/Go-SQL-Driver/MySQL/utils.go:877-963 | appends the same bytes for the same string |
| `Interpolate.LoopTextIff` | Godeps/_workspace/src/github.com/Go-SQL-Driver/MySQL/connection.go:178-282 | if every value is supported and fits, text is produced exactly when placeholders and arguments agree in number, and the index panic happens exactly with too few arguments; otherwise neither does; the text is the query with the k-th placeholder replaced by the k-th literal |
| `Interpolate.FitsIff` | Godeps/_workspace/src/github.com/Go-SQL-Driver/MySQL/connection.go:275-277 | what fits means, placeholder by placeholder: the text up to its literal and four more bytes are within the limit, unless the argument is NULL |
| `Interpolate.PlaceholderIsData` | Godeps/_workspace/src/github.com/Go-SQL-Driver/MySQL/connection.go:168-283 | read from its opening quote, a string argument is that string and ends where the query goes on, unless that begins with a quote |
| `Lexing.AllDataIff` | Godeps/_workspace/src/github.com/Go-SQL-Driver/MySQL/connection.go:168-283 | in the interpolated text every argument is cut off from its surroundings on both sides and stands for its value (strings read back from their quotes, integers and booleans as their number), if and only if every placeholder stands in code where its literal can begin a token and nothing goes on with it |
| `Lexing.IntroducerRunsIn` | Godeps/_workspace/src/github.com/Go-SQL-Driver/MySQL/connection.go:263-270 | the query x? with the string 41 gives a hexadecimal literal |
| `Lexing.DigitRunsIn` | Godeps/_workspace/src/github.com/Go-SQL-Driver/MySQL/connection.go:196-197 | the query 1? with the number 5 gives the number 15 |
| `Lexing.BlankSeparates` | Godeps/_workspace/src/github.com/Go-SQL-Driver/MySQL/connection.go:178-188 | after a blank in code every value with a literal is data |
| `Lexing.QuotedRun` | Godeps/_workspace/src/github.com/Go-SQL-Driver/MySQL/utils.go:829-963 | where a quote begins a token, the literal of any byte string stays inside its quotes to its end, in both modes |
| `Lexing.EscapeStaysEither` | Godeps/_workspace/src/github.com/Go-SQL-Driver/MySQL/utils.go:834-875 | with backslashes an escaped text stays inside quotes of either kind |
| `Lexing.NumberRun` | Godeps/_workspace/src/github.com/Go-SQL-Driver/MySQL/connection.go:196-205 | where its first character begins a token, a number is read to its own end, in any state of the lexer |
| `Lexing.IntegerReads` | Godeps/_workspace/src/github.com/Go-SQL-Driver/MySQL/connection.go:196-197 | a printed integer reads back as that integer |
| `Interpolate.SubstituteSplit` | Godeps/_workspace/src/github.com/Go-SQL-Driver/MySQL/connection.go:178-188 | substitution distributes over the parts of a query, each with its own arguments |
| `Interpolate.NextPlaceholder` | Godeps/_workspace/src/github.com/Go-SQL-Driver/MySQL/connection.go:179-185 | finds the first placeholder from a position, or shows there is none |
| `Interpolate.AppendLiteral` | Godeps/_workspace/src/github.com/Go-SQL-Driver/MySQL/connection.go:190-273 | appends exactly the value's literal to the text built so far |
| `Interpolate.BuildText` | Godeps/_workspace/src/github.com/Go-SQL-Driver/MySQL/connection.go:178-282 | the loop over the query, building in a reused array, has the specified outcome |
| `Interpolate.InterpolateParams` | Godeps/_workspace/src/github.com/Go-SQL-Driver/MySQL/connection.go:168-283 | the connection's buffer is used only when it holds no unread bytes and stays valid |
| `Dsn.ConnectStringRecoveredIff` | Pinger/db.go:116-127 | for every password the driver recovers user, password, network, address and database from the printed string, if and only if the user holds no ':', the host no '@' and the database no '/' or '?' |
| `Dsn.PrintedRecoveredIff` | Pinger/db.go:116-127 | the same on the text itself, written out |
| `Dsn.AddressLeftOut` | Godeps/_workspace/src/github.com/Go-SQL-Driver/MySQL/utils.go:155-171 | without an address each network gets its default, and an unknown one is refused |
| `Dsn.SlashLeftOut` | Godeps/_workspace/src/github.com/Go-SQL-Driver/MySQL/utils.go:147-149 | without a slash only the empty string is accepted |
| `Dsn.ParametersCut` | Godeps/_workspace/src/github.com/Go-SQL-Driver/MySQL/utils.go:131-153 | the parameters are what follows the first question mark, and their faults are reported |
| `Dsn.AddressNotClosed` | Godeps/_workspace/src/github.com/Go-SQL-Driver/MySQL/utils.go:113-124 | an address whose parenthesis is not closed at its end is refused, with one of two errors |
| `Dsn.AccessParsesIff` | Godeps/_workspace/src/github.com/Go-SQL-Driver/MySQL/utils.go:94-129 | the part before the last slash gives back user and password exactly under the first two conditions |
| `Dsn.NameParsesIff` | Godeps/_workspace/src/github.com/Go-SQL-Driver/MySQL/utils.go:131-171 | the rest gives back the database name exactly without a '?' |
| `Dsn.NetworkParses` | Godeps/_workspace/src/github.com/Go-SQL-Driver/MySQL/utils.go:113-128 | the printed address is always recovered from its parentheses |
| `Dsn.ParseAddress` | Godeps/_workspace/src/github.com/Go-SQL-Driver/MySQL/utils.go:113-128 | the loop for the protocol and address, with both syntax errors |
| `Dsn.ParseCredentials` | Godeps/_workspace/src/github.com/Go-SQL-Driver/MySQL/utils.go:99-107 | the loop for user and password cuts at the first ':' |
| `Dsn.ParseLeft` | Godeps/_workspace/src/github.com/Go-SQL-Driver/MySQL/utils.go:93-129 | the nested loops up to the slash compute the specified left part |
| `Dsn.ParseRight` | Godeps/_workspace/src/github.com/Go-SQL-Driver/MySQL/utils.go:131-171 | the name, the parameters and the defaults |
| `Dsn.ParseDSN` | Godeps/_workspace/src/github.com/Go-SQL-Driver/MySQL/utils.go:76-174 | the whole parse, on every string, is the specified one |
| `Locking.OverwritesUnseenIff` | Godeps/_workspace/src/github.com/coopernurse/gorp/gorp.go:1872-2047 | after any interleaving of any clients, an update succeeds exactly on the version it compares with, and a successful one overwrites a write its copy had not seen exactly when the copy does not come from the row, or the row has begun anew since, or the copy is at version zero; likewise for deletes |
| `Locking.NoLostUpdate` | Godeps/_workspace/src/github.com/coopernurse/gorp/gorp.go:1872-2047 | for disciplined clients (fresh copies inserted under keys never deleted, updates of copies that come from their row) an update or delete succeeds exactly on the stored version and overwrites the very write its copy had seen; a delete then removes exactly that row; otherwise nothing changes and the locking error tells whether the row exists |
| `Locking.OutcomesReported` | Godeps/_workspace/src/github.com/coopernurse/gorp/gorp.go:1872-2047 | after any interleaving and for every copy: an update or delete is refused with the locking error, which tells whether the row exists, exactly when its version is positive and not the stored one; a refused one changes nothing, a successful one exactly its own row; what each leaves in table and copy |
| `Locking.ReadGivesRow` | Godeps/_workspace/src/github.com/coopernurse/gorp/gorp.go:1812-1870 | a copy read from a row is that row as it stands, and an update of it then succeeds at the next version |
| `Locking.DisciplineKeepsOneLife` | Godeps/_workspace/src/github.com/coopernurse/gorp/gorp.go:1872-2031 | in a run of disciplined clients no row ever begins anew |
| `Locking.EveryRunKeepsInv` | Godeps/_workspace/src/github.com/coopernurse/gorp/gorp.go:1872-2031 | in every run, whatever the clients do, each row is the last write of its history at its version, and each copy that comes from a row agrees with the write of its version or is older than the row |
| `Locking.UpdateKeepsInv` | Godeps/_workspace/src/github.com/coopernurse/gorp/gorp.go:1920-1970 | an update keeps that, for every other copy too |
| `Locking.InsertKeepsInv` | Godeps/_workspace/src/github.com/coopernurse/gorp/gorp.go:1972-2031 | an insert keeps it, at any version, new or again, whether it succeeds or not |
| `Locking.UpdateLawIff` | Godeps/_workspace/src/github.com/coopernurse/gorp/gorp.go:294-302 | that an update succeeds exactly on the stored version and raises it by one holds on every table exactly for copies whose version is not zero |
| `Locking.VersionZeroOverwrites` | Godeps/_workspace/src/github.com/coopernurse/gorp/gorp.go:294-302 | a copy at version zero overwrites a row at version one without raising it |
| `Locking.FailedInsertOverwritesIff` | Godeps/_workspace/src/github.com/coopernurse/gorp/gorp.go:2016-2021 | a fresh copy whose insert failed on a taken key overwrites that row with its next update exactly when the row is at version one |
| `Locking.InsertAgreesIff` | Godeps/_workspace/src/github.com/coopernurse/gorp/gorp.go:1972-2031 | a successful insert leaves copy and row in agreement exactly for version zero |
| `Locking.ReinsertionLosesUpdate` | Godeps/_workspace/src/github.com/coopernurse/gorp/gorp.go:1872-2031 | one history in which a stale copy overwrites a row reinserted under a deleted key |
| `Gorp.AssignedColumns` | Godeps/_workspace/src/github.com/coopernurse/gorp/gorp.go:405-423 | the loop lists the columns to assign, marks the version's argument and notes the version field |
| `Gorp.FindAuto` | Godeps/_workspace/src/github.com/coopernurse/gorp/gorp.go:350-381 | the insert plan names the column whose value the database chooses |
| `Gorp.KeptVersion` | Godeps/_workspace/src/github.com/coopernurse/gorp/gorp.go:462-469 | a delete is versioned exactly when the version column is not transient |
| `Gorp.WhereClause` | Godeps/_workspace/src/github.com/coopernurse/gorp/gorp.go:424-443 | the condition is on every key and then on the version, with its arguments after those before it |
| `Gorp.Elem.CreateBindInstance` | Godeps/_workspace/src/github.com/coopernurse/gorp/gorp.go:286-327 | each field is bound as it stands after the arguments before it, and a zero version has become one in the struct |
| `Gorp.Elem.BindArgs` | Godeps/_workspace/src/github.com/coopernurse/gorp/gorp.go:294-313 | the binding loop, which reads and changes the struct in one pass |
| `Store.UpdateArgs` | Godeps/_workspace/src/github.com/coopernurse/gorp/gorp.go:397-453 | a bound update assigns the struct's fields and the raised version, and compares the keys and the version, or one for a zero version |
| `Store.HitsOwnRow` | Godeps/_workspace/src/github.com/coopernurse/gorp/gorp.go:424-443 | the condition selects at most the struct's own row, exactly when it is at the compared version |
| `Store.AssignsImage` | Godeps/_workspace/src/github.com/coopernurse/gorp/gorp.go:405-423 | the assigned row is the struct's stored fields at the raised version |
| `Store.UpdateStatement` | Godeps/_workspace/src/github.com/coopernurse/gorp/gorp.go:1920-1955 | executing the built statement is the compare-and-set of the locking protocol, and counts its rows |
| `Store.DeleteRefines` | Godeps/_workspace/src/github.com/coopernurse/gorp/gorp.go:455-499 | so is the delete |
| `Store.InsertRefines` | Godeps/_workspace/src/github.com/coopernurse/gorp/gorp.go:339-395 | and the insert |
| `Store.InsertsImage` | Godeps/_workspace/src/github.com/coopernurse/gorp/gorp.go:350-376 | the inserted row is the image, at the raised version, of the struct under the key it gets, its own or one the database chooses |
| `Store.DbMap.PlanInsert` | Godeps/_workspace/src/github.com/coopernurse/gorp/gorp.go:339-395 | the plan is built once and the cached one is always the specified plan |
| `Store.DbMap.PlanUpdate` | Godeps/_workspace/src/github.com/coopernurse/gorp/gorp.go:397-453 | the same for updates |
| `Store.DbMap.PlanDelete` | Godeps/_workspace/src/github.com/coopernurse/gorp/gorp.go:455-499 | the same for deletes |
| `Store.DbMap.Update` | Godeps/_workspace/src/github.com/coopernurse/gorp/gorp.go:1920-1970 | table, struct and outcome after an update are those of the locking step |
| `Store.DbMap.Delete` | Godeps/_workspace/src/github.com/coopernurse/gorp/gorp.go:1872-1918 | the same for a delete, which leaves the struct alone; its outcome and table are pinned by `Locking.OutcomesReported` |
| `Store.DbMap.Insert` | Godeps/_workspace/src/github.com/coopernurse/gorp/gorp.go:1972-2031 | the same for an insert, also when the key is taken, and also when the database chooses the key, which the struct then has |
| `Getter.InitChunks` | Godeps/_workspace/src/github.com/rlmcpherson/s3gof3r/getter.go:121-144 | the chunks cut the object's range into consecutive, numbered, non-empty pieces, exactly chunkTotal of them |
| `Getter.ChunkTotalIs` | Godeps/_workspace/src/github.com/rlmcpherson/s3gof3r/getter.go:87 | chunkTotal is the least number of chunks that cover the object |
| `Getter.PiecesConcatenate` | Godeps/_workspace/src/github.com/rlmcpherson/s3gof3r/getter.go:121-144 | in order the chunks' pieces concatenate to the object |
| `Getter.Getter.constructor` | Godeps/_workspace/src/github.com/rlmcpherson/s3gof3r/getter.go:54-97 | reading starts at the first byte, for any order of deliveries in which every chunk comes or some worker gives up |
| `Getter.Getter.NextChunk` | Godeps/_workspace/src/github.com/rlmcpherson/s3gof3r/getter.go:245-267 | the loop ends, with the very chunk the reader is at, or with the error of a worker that gave up; without one it always succeeds |
| `Getter.Getter.Progress` | Godeps/_workspace/src/github.com/rlmcpherson/s3gof3r/getter.go:207-220 | the end of the object is recognised exactly there, and the two consistency errors never arise |
| `Getter.Getter.Take` | Godeps/_workspace/src/github.com/rlmcpherson/s3gof3r/getter.go:230-239 | a round copies the next bytes of the object in place and moves on to the next chunk exactly at its end |
| `Getter.Getter.Read` | Godeps/_workspace/src/github.com/rlmcpherson/s3gof3r/getter.go:197-243 | the caller's slice holds the object's next bytes and is otherwise unchanged; it is short exactly at the end, which is then reported; after a failure nothing counts as read |
| `Getter.Getter.Close` | Godeps/_workspace/src/github.com/rlmcpherson/s3gof3r/getter.go:269-280 | closing succeeds exactly once and only after the whole object was read |
| `Getter.ReadAll` | Godeps/_workspace/src/github.com/rlmcpherson/s3gof3r/getter.go:197-267 | reads of any positive sizes until the end yield the object, whatever the delivery order |
| `Getter.MoveKeepsInv` | Godeps/_workspace/src/github.com/rlmcpherson/s3gof3r/getter.go:121-166 | every move of issuer, workers and reader, giving up included, keeps each chunk in one place and uses up work |
| `Getter.NeverStuck` | Godeps/_workspace/src/github.com/rlmcpherson/s3gof3r/getter.go:121-166 | holding back the issuer cannot deadlock: while a chunk is missing some move is possible, also after a worker gave up |
| `Getter.EveryRunFinishes` | Godeps/_workspace/src/github.com/rlmcpherson/s3gof3r/getter.go:121-267 | every interleaving takes at most 5 total + 2 moves with at most workers + 3 chunks in memory; it panics exactly when two chunks are given up, and otherwise can only end with every chunk read if none was, and the error reported if one was |
| `Getter.PanicReachableIff` | Godeps/_workspace/src/github.com/rlmcpherson/s3gof3r/getter.go:146-166 | some run of a download panics exactly when the object has at least two chunks, for any positive number of workers |
| `Getter.GivesUpTwice` | Godeps/_workspace/src/github.com/rlmcpherson/s3gof3r/getter.go:146-166 | a run in which one worker gives up two chunks and panics |
| `Putter.GrowsIff` | Godeps/_workspace/src/github.com/rlmcpherson/s3gof3r/putter.go:383-385 | the part size grows exactly when one byte more in each remaining part would still be needed |
| `Putter.RefusedThoughShortIff` | Godeps/_workspace/src/github.com/rlmcpherson/s3gof3r/putter.go:381-385 | for any arguments, growth is refused although the remaining parts are too small exactly when the size is the rounded-down quotient of an inexact division |
| `Putter.RefusalBetweenPartsIsSafe` | Godeps/_workspace/src/github.com/rlmcpherson/s3gof3r/putter.go:152-158 | for every first size, after every full part growth is refused only if the remaining parts hold the rest of the largest object |
| `Putter.ClosingFlushRefuses` | Godeps/_workspace/src/github.com/rlmcpherson/s3gof3r/putter.go:227-230 | an upload whose closing part is number 2000 and partial is refused growth although the remaining parts would be one byte short |
| `Putter.LargestObjectFitsIff` | Godeps/_workspace/src/github.com/rlmcpherson/s3gof3r/putter.go:152-158 | for a first size within the limit, 10000 full parts hold the largest object exactly when 62000 times that size does |
| `Putter.PartLimitKept` | Godeps/_workspace/src/github.com/rlmcpherson/s3gof3r/putter.go:137-159 | then any upload of at most the largest size takes at most 10000 parts |
| `Putter.PartLimitBroken` | Godeps/_workspace/src/github.com/rlmcpherson/s3gof3r/putter.go:137-159 | and with a smaller first size the largest object takes more |
| `Putter.SizeAtLeast` | Godeps/_workspace/src/github.com/rlmcpherson/s3gof3r/putter.go:83-158 | part sizes never fall below the first one, or below the largest part size if that is smaller, so no part but the last is below the service's minimum |
| `Putter.Putter.constructor` | Godeps/_workspace/src/github.com/rlmcpherson/s3gof3r/putter.go:76-106 | an upload starts empty, with parts of at least the minimum size |
| `Putter.Putter.WriteSome` | Godeps/_workspace/src/github.com/rlmcpherson/s3gof3r/putter.go:118-133 | one round takes some bytes, and parts plus pending bytes grow by exactly those |
| `Putter.Putter.Write` | Godeps/_workspace/src/github.com/rlmcpherson/s3gof3r/putter.go:108-135 | all bytes are taken, in order, unless the upload is closed or failed, when none is |
| `Putter.Putter.Close` | Godeps/_workspace/src/github.com/rlmcpherson/s3gof3r/putter.go:218-233 | the parts are numbered 1 to n and concatenate to everything written; all but the last are full, and there is at least one |
| `Putter.Upload` | Godeps/_workspace/src/github.com/rlmcpherson/s3gof3r/putter.go:76-233 | any writes, then Close: the parts make up exactly the written bytes, cut as planned, and number at most 10000 when the first size allows and the object is within the limit |
| `Imap.FollowsIff` | Pinger/imap.go:336-357 | through any events a conforming server sends, the count is the announced size after every event, without wrapping around, and new mail is noticed exactly when some EXISTS announced a different size, if and only if every response that changes the size has its keyword in upper case |
| `Imap.IdleTracks` | Pinger/imap.go:336-447 | a whole IDLE exchange with such a server reads exactly its lines up to the tagged completion, and with upper-case keywords ends with the count at the announced size and new mail noticed exactly when it changed |
| `Imap.LowerCaseMissed` | Pinger/imap.go:255-266 | the line * 5 exists announces five messages and changes nothing |
| `Imap.ReadPanicsIff` | Pinger/imap.go:408-447 | reading a command's responses panics exactly when a line with too few words comes up to the first final one |
| `Imap.EventTrackedIff` | Pinger/imap.go:336-357 | one EXISTS or EXPUNGE moves the count to the new size exactly when it changes nothing or its keyword is in upper case |
| `Imap.LineSays` | Pinger/imap.go:214-266 | the parsers recover number and kind from a response exactly when its keyword is in upper case |
| `Imap.ExamineLearnsIff` | Pinger/imap.go:357-366 | a whole EXAMINE exchange, whatever other lines it holds, finishes at the tagged completion with the count at the size announced last, exactly when that keyword is in upper case or the count was there before |
| `Imap.ExamineAndIdle` | Pinger/imap.go:336-447 | EXAMINE and then IDLE on one client, with upper-case keywords: from whatever it knew, the count ends at the server's announced size, and new mail is noticed exactly when some EXISTS during IDLE announced another size |
| `Imap.StatusTracks` | Pinger/imap.go:367-384 | through any STATUS responses the known identifier is the last non-zero one announced, and new mail is noticed exactly when two successive ones differ |
| `Imap.StatusReadsBack` | Pinger/imap.go:233-253 | the pattern recovers the identifier whatever stands before the counts, even a folder name that looks like counts, unless counts follow again |
| `Imap.PollStatus` | Pinger/imap.go:367-447 | any number of whole STATUS exchanges on one client have that effect |
| `Imap.ExamineLearnsUid` | Pinger/imap.go:214-231 | a whole EXAMINE exchange leaves the known identifier at the one announced last, exactly when its keyword is in upper case or it was known before |
| `Imap.ExamineAndPoll` | Pinger/imap.go:336-447 | EXAMINE and then any STATUS polls on one client: new mail is noticed exactly when some poll announces another identifier than the one known, beginning with that of EXAMINE |
| `Imap.StopsAtFirstFinal` | Pinger/imap.go:408-447 | reading finishes at the first final response and nowhere else |
| `Imap.ContinuationFinalIff` | Pinger/imap.go:387-390 | a continuation request ends the responses of every command but IDLE |
| `Imap.Client.ProcessResponse` | Pinger/imap.go:336-385 | the client's fields change as specified for IDLE, EXAMINE and STATUS, whose effects the rows above pin, or the line has too few tokens |
| `Imap.Client.GetServerResponses` | Pinger/imap.go:408-447 | the loop returns the specified prefix of what the server sends, and leaves idling exactly when IDLE completes |
| `Imap.CmdTag.Next` | Pinger/imap.go:142-145 | the tag differs from all handed out before exactly while fewer than 2^64 were |
| `Imap.TagsCycle` | Pinger/imap.go:142-145 | the tags of one client are pairwise distinct over 2^64 calls and then come again |
| `Imap.TagsDistinct` | Pinger/imap.go:142-145 | different numbers give different tags |
| `Imap.CompletionMistakenIff` | Pinger/imap.go:387-398 | the completion of one command passes for another's exactly when the other's number is a prefix of its number |
| `Imap.LateCompletionIgnored` | Pinger/imap.go:387-398 | so the late completion of an earlier command is never taken for the current one's |

## Left out

- Sockets, TLS, HTTP, push services, SQLite and the MySQL server: what they deliver or answer is a parameter.
- Handshake, authentication, prepared-statement execution and binary rows of the MySQL driver: more encodings of the kind shown for text rows.
- Dsn.ParseDSN: the connection parameters after '?' are read by an arbitrary function, because their many keys would only add easy cases.
- Dsn.ParseRight: the same arbitrary function.
- LengthEncoding.ReadRow: time parsing is off, so date columns stay byte strings.
- Interpolate.AppendLiteral: floats and times carry their printed text, because formatting them is library code; byte slices are given by their contents.
- Lexing.AllDataIff: is about tokens, not grammar, so it does not say that neighbouring strings are concatenated, that a word such as DATE or _utf8 before a string gives it a type or a character set, or that a minus sign may subtract; printed times are assumed to be quoted texts with nothing to escape; executable comments count as comments; the character sets in which a byte of a character can be a backslash are refused by the driver.
- Escape.EscapeBytes: says only what precedes the written part when the slice overlaps it.
- Session.MailClient.Handle: the statistics, device cleanup and timer durations are not modelled; a timer is unset, idle or armed.
- Session.MailClient.Status: before `start` runs the status is Initialized, and between the stop event after a poll error and the deferred function of `start` it is Error; neither is a loop head.
- Session.MailClient.constructor: the protocol is compared exactly, as the loop does, while session creation ignores case.
- PollMap.BackendPolling.RPCStartPoll: the send that may block is the subject of module Commands instead.
- PollMap.BackendPolling.RPCDeferPoll: the delivery of the defer command to the session happens in another goroutine, as a step of module Commands; its new timeout is a timer duration, which is not modelled.
- Fsm.FileCallbacks: when a short and a full name denote the same callback either may be filed, as the library documents.
- Store.DbMap.Insert: the statement's hooks and type converters are not modelled.
- Store.DbMap.Update: the error's row lookup happens with no other statement in between; affected rows are matched rows; versions are unbounded integers; hooks and type converters are not modelled; a column and its field share a name.
- Store.DbMap.Delete: hooks and type converters are not modelled.
- Gorp.Elem.CreateBindInstance: reflection on struct fields is a map from names to values, and there is no type converter, as in this system's database setup.
- Getter.Getter.Read: the checksum and the recycling of buffers are left out.
- Getter.Getter.Close: the checksum comparison is left out.
- Getter.MoveKeepsInv: sleeping and retrying are single moves.
- Putter.Putter.Write: a failed worker is a field; checksums and the upload itself are left out, so a part's buffer is its contents, and the pool's buffers count as having the current size.
- Putter.Putter.Close: the completion request and the comparison of its checksums are left out.
- Imap.Client.ProcessResponse: sending DONE is counted; a response is one line, so the pattern for STATUS meets no line break, and its keywords are upper case, as in the source.
- Packets.LongDataArrivesIff: the server's side is the documented format of the command; what a server does with a malformed one is not part of this model.
- Fsm.FSM.Event: callbacks are an arbitrary function from slots to what they ask for, so one that raises another event from inside is not modelled.
- Long polls over ActiveSync, the web server's handlers, DynamoDB and configuration files: mostly calls into other systems.
