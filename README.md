# Tunnel engine of the HTTP remote endpoint, in Dafny

This project models `tunnels/http/remote.php`, the server side of a
TCP-over-HTTP tunnel, and proves properties of the model. The file has two
halves.

- The **tunnel engine** (`class Tunnel`) owns outbound TCP connections:
  open streams, connecting streams and a socket-to-id index. Each loop
  iteration it trades message queues with the PHP session, turns inbound
  `connect`/`sync` messages into socket operations (`digest_incoming`),
  waits with `socket_select`, and turns connect results and reads into
  outbound `status`/`sync` messages.
- The **session queue** is the per-session store behind the `start`,
  `sync` and `stop` requests. It admits inbound batches strictly in
  sequence-number order, parks early batches in a reorder buffer, refuses
  stale numbers, and hands out the outbound queue in numbered pages of at
  most 64 messages.

Modules:

- `Php` (`php.dfy`): byte strings, PHP string truthiness (`""` and `"0"`
  are falsy) and `Option` for calls that return `false`.
- `Protocol` (`protocol.dfy`): stream ids, socket handles, the failure
  status 5 and the `Message` records.
- `Streams` (`stream.dfy`): `Stream` and its write loop `Send`. `SendSpec`
  is a function specification of that loop, and lemmas about it say what
  `send` returns and what it writes.
- `SessionQueue` (`session.dfy`): `class Session` with `Start`, `Sync` and
  `Stop`. `Drain`, `Batches` and `Pages` specify reassembly and paging.
  Two ghost fields keep a ledger across requests: `accepted` holds every
  batch taken under a number that was not refused, and `taken` holds the
  inbound messages the engine has already collected. The invariant
  `Ledger` says that `taken + incoming` is always the accepted batches
  0, 1, ..., `i_seq` - 1 in that order, each exactly once.
- `Engine` (`tunnel.dfy`): `class Tunnel` with `DigestIncoming`,
  `Exchange` and `PostSelect`.
  - `EngineState` mirrors the object's fields.
  - `Digested` and `AfterSelect` are the specification functions the
    methods are proved against.
  - `Wf` is the engine invariant. Both stream maps are indexed by socket.
    No socket is both open and connecting. No socket in use is closed.

Everything the operating system decides is a parameter:

- name resolution: `resolve`, returning `None` for `false`
- `socket_write`: `write`, given the index of the message being handled
- `socket_last_error`: `errorOf`
- `socket_read`: `readOf`
- the ready lists of `socket_select`: `readyConnecting` and `readyActive`,
  which must be distinct sockets drawn from the connecting and open streams

Socket handles come from a counter (`nextSock`). The sockets passed to
`socket_close` are collected in `closed`.

### Behaviour kept as written

- **The write loop guard.** `send` loops while the remaining string is
  truthy. A remainder of exactly `"0"` therefore ends the loop with `true`
  although the byte was never written. `SendDropsTrailingZero` exhibits
  this, and `SendCompleteUnlessTrailingZero` proves completeness for every
  other input.
  - A write reporting 0 bytes counts as a failure (`0 == false`).
  - A read returning `""` or `"0"` counts as a failure.
- **Sockets from `connect`.** A socket is created for every `connect`,
  before the address is resolved, so an unresolvable address still uses up
  a socket handle (`DigestUnresolvedConnect`).
- **The socket index keeps dead entries.** A failed connect closes its
  socket but leaves the socket's index entry (`ConnectedIffNoError`).
  Because of this, `Wf` requires every stream to be indexed, but does not
  require every index entry to belong to a stream.
- **Failed sends.** A failed send in `digest_incoming` reports status 5
  but leaves the stream open. If the next read then fails, a second
  status 5 goes out for the same stream (`SendFailureThenReadFailure`).
  "At most one status per stream" therefore does not hold for the code as
  written.
- **Reconnecting an open id.** The read loop reads the socket of the
  stream its id names *now*. This differs from the ready socket only when
  a `connect` reused the id of a stream that was still open. In that case
  a failed read drops the newly connected stream, and its socket stays
  indexed but is never closed (`ReconnectReadsNewSocket`).
- **Session requests.** `start` initialises the session only while
  `running` is unset, so it does nothing after a `stop`, even a `stop`
  sent before any `start`. A repeated early sequence number replaces the
  batch parked under it. A stale number is answered with an error, and no
  page is consumed.

## Model

| member | source | states |
|---|---|---|
| Streams.Stream.Send | tunnels/http/remote.php:41-49 | the value returned and the writes made are those of `SendSpec`; it returns true exactly when every write was accepted; a rejected write is the last one; each write is offered exactly the bytes of the input not yet taken; the bytes written are a prefix of the input; on true the unwritten rest is `""` or `"0"` |
| Streams.SendSucceedsIffAllAccepted | tunnels/http/remote.php:42-48 | send succeeds if and only if no write reported `false` or 0; when it fails, the failing write is the last one made |
| Streams.SendWritesInOrder | tunnels/http/remote.php:42-46 | the bytes handed to the socket are, in order, a prefix of the data, and every write is offered exactly the suffix that earlier writes left |
| Streams.SendLeavesFalsyRest | tunnels/http/remote.php:42-48 | when send returns true, what was not written is falsy: empty or the single byte "0" |
| Streams.SendCompleteUnlessTrailingZero | tunnels/http/remote.php:42-48 | for data that does not end in the byte "0", a successful send wrote all of it |
| Streams.SendDropsTrailingZero | tunnels/http/remote.php:42-46 | "10" sent to a socket taking one byte per write returns true after writing only "1" |
| SessionQueue.DrainSpec | tunnels/http/remote.php:203-207 | the drain loop admits the buffered batches with consecutive numbers from the start number, in order, stops at the first missing number, and removes exactly those batches from the buffer |
| SessionQueue.DrainLeavesLaterKeys | tunnels/http/remote.php:203-207 | when every buffered number is at least the start, every batch left after draining lies beyond the new expected number |
| SessionQueue.PagesPartitionQueue | tunnels/http/remote.php:217-218 | taking 64 messages at a time splits the outbound queue into pages whose concatenation is the queue, ceil(n/64) pages of 1 to 64 messages, all full but the last |
| SessionQueue.PagesOf130Messages | tunnels/http/remote.php:217-218 | 130 queued messages go out as pages of 64, 64 and 2 |
| SessionQueue.Session.Start | tunnels/http/remote.php:169-178 | launches the engine exactly when `running` was unset, then with running true, both sequence numbers 0, empty buffer and queues and control 0, and an empty ledger; otherwise the session is unchanged |
| SessionQueue.Session.Stop | tunnels/http/remote.php:227-228 | sets `running` to false and changes nothing else |
| SessionQueue.Session.Admit | tunnels/http/remote.php:199-207 | admitting the expected number appends its batch and then the drained buffered batches, advances the expected number past them, records the batch as accepted, and keeps the ledger |
| SessionQueue.Session.DrainBuffer | tunnels/http/remote.php:203-207 | the drain loop appends to `incoming` exactly what `Drain` admits, and leaves the expected number and the buffer as `Drain` does |
| SessionQueue.AdmitKeepsLedger | tunnels/http/remote.php:199-207 | admitting the expected batch and draining after it keeps the ledger: the admitted messages grow by that batch and the drained ones, and are still the accepted batches in sequence order |
| SessionQueue.ParkKeepsLedger | tunnels/http/remote.php:209-210 | parking a batch ahead of the expected number, replacing any parked under it, keeps the ledger and admits nothing |
| SessionQueue.Poll | tunnels/http/remote.php:217-221 | successive `sync` requests with nothing queued in between are answered with the pages of the outbound queue in order, numbered from `o_seq` on, then with empty pages |
| SessionQueue.Session.Sync | tunnels/http/remote.php:195-225 | a stale number gets an error with nothing changed; the expected number is admitted with the batches that follow it in the buffer, which loses exactly those; a later number is parked in the buffer; otherwise the reply is page `o_seq` holding the first up to 64 outbound messages, which leave the queue, and `o_seq` grows by one; sequence numbers never decrease; buffer keys stay beyond `i_seq`; a batch under a number that is not refused is recorded as accepted, and the inbound messages collected or queued are always the accepted batches 0 to `i_seq` - 1 in order |
| SessionQueue.ReorderedArrival | tunnels/http/remote.php:199-210 | batches sent as 0, 2, 1 are admitted as 0, 1, 2, and the next expected number is 3 |
| SessionQueue.ReplayRefused | tunnels/http/remote.php:199-215 | replaying an admitted number is answered with an error and admits nothing |
| Engine.DigestInOrder | tunnels/http/remote.php:66-95 | the inbound messages are handled one after another in queue order |
| Engine.DigestUnresolvedConnect | tunnels/http/remote.php:68-77 | an unresolvable `connect` appends status 5, registers nothing, and still consumes a socket |
| Engine.DigestResolvedConnect | tunnels/http/remote.php:68-83 | a resolved `connect` registers a connecting stream under its id with a fresh socket and indexes that socket to the id, with no message out |
| Engine.DigestSyncToOpenStream | tunnels/http/remote.php:85-93 | a `sync` to an open stream appends status 5 exactly when the send fails, and changes nothing else, so the stream stays open |
| Engine.DigestIgnored | tunnels/http/remote.php:67-94 | a `sync` to an id with no open stream, and any other command, changes nothing |
| Engine.DigestEffects | tunnels/http/remote.php:65-95 | digesting a batch opens or closes no stream, creates one socket per `connect`, and appends only status-5 messages |
| Engine.DigestKeepsWf | tunnels/http/remote.php:65-95 | digesting a batch keeps the engine invariant |
| Engine.Tunnel.constructor | tunnels/http/remote.php:53-63 | a new tunnel is running, with no streams, an empty index and empty queues |
| Engine.Tunnel.DigestIncoming | tunnels/http/remote.php:65-97 | the new state is the whole inbound queue digested in order, with the queue cleared; the invariant is kept |
| Engine.Tunnel.DigestMessage | tunnels/http/remote.php:67-94 | one pass of the loop leaves the state `DigestOne` gives for that message, and keeps the invariant |
| Engine.Tunnel.Exchange | tunnels/http/remote.php:103-112 | with no `running` flag in the session it stops with nothing changed; otherwise the session's inbound queue is appended to the tunnel's and cleared, the tunnel's outbound queue is appended to the session's and cleared, the tunnel adopts the session's running flag, and `control` grows by one; the session's ledger records the collected messages as taken |
| SessionQueue.Session.Trade | tunnels/http/remote.php:106-111 | the store hands over its inbound queue and empties it, appends the engine's outbound messages, counts one more iteration, and keeps the ledger |
| Engine.Tunnel.PostSelect | tunnels/http/remote.php:129-156 | the new state is the connect loop followed by the read loop over the ready lists, and the invariant is kept |
| Engine.Tunnel.ConnectLoop | tunnels/http/remote.php:129-142 | the new state is the connect loop run over the ready connecting sockets in order, and the invariant is kept |
| Engine.Tunnel.ReadLoop | tunnels/http/remote.php:144-156 | the new state is the read loop run over the ready open sockets in order, and the invariant is kept |
| Engine.Tunnel.ConnectStep | tunnels/http/remote.php:130-141 | one ready connecting socket leaves the state `ConnectOne` gives |
| Engine.Tunnel.ReadStep | tunnels/http/remote.php:145-155 | one ready open socket leaves the state `ReadOne` gives |
| Engine.ConnectPhaseReports | tunnels/http/remote.php:129-135 | the connect loop appends, in order, one status per ready socket carrying its id and its `socket_last_error` |
| Engine.ConnectPhaseAt | tunnels/http/remote.php:131-141 | each ready connecting id leaves the connecting streams; with error 0 it becomes an open stream; otherwise its socket is closed and the open stream under that id is as before |
| Engine.ConnectPhaseOthers | tunnels/http/remote.php:129-142 | ids named by no ready connecting socket keep their open and connecting streams |
| Engine.ConnectPhaseFrame | tunnels/http/remote.php:129-142 | the connect loop leaves the index, the socket counter and the inbound queue alone; connecting streams only leave, open streams only arrive, and only failed ready sockets get closed |
| Engine.ConnectedIffNoError | tunnels/http/remote.php:129-142 | a ready connecting socket is afterwards the socket of an open stream exactly when its error is 0, and never still connecting; a failed one is closed but keeps its index entry |
| Engine.ReadPhaseReports | tunnels/http/remote.php:144-156 | the read loop appends, in order, one message per ready socket: status 5 for a failed read, else a `sync` with the bytes read |
| Engine.ReadPhaseAt | tunnels/http/remote.php:144-156 | after a failed read the stream, the socket's index entry and the socket are gone; after a good read the stream and the index entry stay |
| Engine.ReadPhaseOthers | tunnels/http/remote.php:144-156 | streams and index entries that no ready socket names are left alone by the read loop |
| Engine.ReadPhaseFrame | tunnels/http/remote.php:144-156 | the read loop leaves the connecting streams, the socket counter and the inbound queue alone; streams and index entries only leave, and only ready sockets get closed |
| Engine.FailedReadRetiresSocket | tunnels/http/remote.php:144-156 | a ready socket whose read fails is closed, unindexed and no longer the socket of any open stream; after a good read its stream is still open |
| Engine.ConnectOneKeepsWf | tunnels/http/remote.php:130-141 | one step of the connect loop keeps the engine invariant and the readiness of the remaining sockets |
| Engine.ReadOneKeepsWf | tunnels/http/remote.php:145-153 | one step of the read loop keeps the engine invariant and the readiness of the remaining sockets |
| Engine.AfterSelectReports | tunnels/http/remote.php:129-156 | the post-select processing appends one status per ready connecting socket, then one message per ready open socket, in the order given |
| Engine.AfterSelectFrame | tunnels/http/remote.php:129-156 | the post-select processing keeps the invariant, leaves the socket counter, the running flag and the inbound queue alone, and closes only ready sockets |
| Engine.ReconnectPromotes | tunnels/http/remote.php:129-142 | a clean connect for an id that is still open replaces the open stream with the new one and reports status 0 |
| Engine.ReconnectReadFails | tunnels/http/remote.php:144-153 | the read for the old ready socket goes to the new stream's socket; when it fails, the new stream and the old socket's index entry go, the old socket is closed, and the new socket stays indexed |
| Engine.ReconnectReadsNewSocket | tunnels/http/remote.php:129-153 | for an open stream 1 on socket 0 and a reconnect of id 1 on socket 1, the post-select processing emits status 0 then status 5, leaves no stream, closes only socket 0 and keeps socket 1 indexed |
| Engine.SendFailureThenReadFailure | tunnels/http/remote.php:85-92 | a stream whose send fails stays open and, when its next read fails, is reported with status 5 a second time |

## Left out

- Socket system calls (`socket_create`, `socket_connect`, `socket_write`, `socket_read`, `socket_last_error`, `socket_close`) are oracles or counters. `socket_create` is assumed to succeed. The result of `socket_connect`, which the code ignores, is not modelled.
- Name resolution (`gethostbyname` with `filter_var`) is the oracle `resolve`.
- The unbounded `while ($this->running)` loop of `handler`, the `sleep(1)` when nothing is waiting, and `socket_select` with its one-second timeout are not modelled. The ready lists are inputs to `PostSelect`; an empty pair covers the skipped iteration.
- The order of the ready lists is given by the caller. PHP array order after `socket_select` is not modelled.
- The 8192-byte bound of `socket_read` is not modelled: reads are arbitrary byte strings.
- Session locking (`session_start`/`session_commit`) and the concurrency between the engine loop and request handlers are not modelled. Each method is one atomic step.
- JSON encoding of requests and responses, and base64 of payloads, are not modelled. Messages carry decoded bytes, and the response is a `SyncResponse` value.
- HTTP plumbing is not modelled: the request method switch, output buffering and headers, the GET dump of the session, and DELETE via `session_destroy`.
- SessionQueue.Session.Sync: requires a session that `start` has initialised. A `sync` before `start` reads unset session keys, and that PHP behaviour is not modelled.
- Engine.Tunnel.Exchange: requires that a session with a `running` flag has been initialised. The engine only runs after `start`, so this always holds.
- Streams.Stream.Send: the PHP 7 `count($data) > 0` on a string is taken as always true for a truthy string. Under PHP 8 it would throw instead.
