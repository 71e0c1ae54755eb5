# winston-socket-server, modelled in Dafny

`lib/socketserver.js` is a winston transport that listens on a socket
(a socket file path by default, `/tmp/winston.sock`) and writes every log
line to every client connected at the time of the call. This project models
its core:

- **Binder** (`binder.dfy`): the startup decision of `_connect` and
  `_makeServer`. The endpoint is probed as a client. A successful probe leads
  straight to `createServer` + `listen`. A probe error leads to `listen` for an
  object endpoint, and to `unlink` then `listen` for a socket path,
  whatever the unlink reports.
- **Connection registry** (`socket_server.dfy`, class `Server`): the
  counter `socketId` (starts at 1) and the table `sockets` from ID to socket.
  `Accept` (`_onSocket`) stores under the counter and increments it; `OnClose`
  deletes exactly that ID; `OnError` does nothing. A ghost set `issued` records
  every ID handed out, so "IDs are never reused" is part of the invariant.
- **Line composition** (`line_format.dfy`): the metadata text (the output of
  the pretty-printer, an input here) has each newline and the `\s` run after
  it replaced by one space. The line is then `level ": " msg ". " meta "\n"`.
- **Broadcast** (`socket_server.dfy`, `fan_out.dfy`): `Snapshot` copies the
  registered sockets into a list by ascending ID, the order in which `for…in`
  enumerates integer keys. `Log` writes the same line once to each. The
  per-leg outcomes arrive in some order as a sequence of `Ok | Err`.
  `JoinAfter` is the completion rule of the `async.each` join: an empty list
  completes at once, the first failure completes it with an error, and
  otherwise it completes when the last leg succeeds. `Completion` gives what
  is then observable: `'logged'`, then the callback with a null error and
  success = no leg failed.

`SocketServer.LogsToSockets`, `SocketServer.BroadcastToBoth` and
`SocketServer.CloseThenLog` replay the logging scenario of
`spec/socketserver.spec.js` against the contracts: both lines, the writes
of each broadcast, and the events after each report.

Facts about the code that the model keeps:

- Only the metadata has its newlines collapsed. A newline in the level or the message stays in the line (`LineFormat.MessageNewlineKept`).
- No timestamp is written.
- The `level` option is stored and never read in this file (a winston logger may filter on it).
- A successful probe still runs create-and-listen, so the bind is left to fail.

## Model

| member | source | states |
|---|---|---|
| `LineFormat.SkipSpaces` | lib/socketserver.js:74 | the greedy `\s*` match: the dropped prefix is all whitespace and the rest does not start with whitespace |
| `LineFormat.Collapse` | lib/socketserver.js:74 | after the replacement the text holds no newline and is no longer than before |
| `LineFormat.CollapseKeepsPlain` | lib/socketserver.js:74 | a text without a newline is left unchanged |
| `LineFormat.CollapseIdempotent` | lib/socketserver.js:74 | replacing twice gives the same text as replacing once |
| `LineFormat.CollapsePlainPrefix` | lib/socketserver.js:74 | a prefix without newlines is copied through unchanged |
| `LineFormat.CollapseNewlineRun` | lib/socketserver.js:74 | a newline with its maximal whitespace run (further newlines included) becomes exactly one space, and matching resumes after the run |
| `LineFormat.MetaString` | lib/socketserver.js:73-74 | the metadata segment is empty when metadata is absent or falsy, and never holds a newline |
| `LineFormat.ComposeLine` | lib/socketserver.js:73-75 | the line starts with the level and `": "`, ends with a newline, and when level and message hold no newline the final newline is its only one; `ComposeLineSegments` gives every segment |
| `LineFormat.ComposeLineSegments` | lib/socketserver.js:75 | the line splits into level, `": "`, message, `". "`, metadata segment and a final newline, at the stated offsets |
| `LineFormat.MessageNewlineKept` | lib/socketserver.js:74-75 | a newline in the message survives in the line: only the metadata is collapsed |
| `LineFormat.ComposeLinePlainMeta` | lib/socketserver.js:73-75 | metadata text without newlines appears verbatim between `". "` and the newline |
| `LineFormat.ComposeLineExample` | spec/socketserver.spec.js:57-60 | level `debug`, message `message`, metadata rendered `{ a: 123 }` give `debug: message. { a: 123 }\n` |
| `LineFormat.ComposeLineSecond` | spec/socketserver.spec.js:72-74 | message `message 2` with the same metadata gives `debug: message 2. { a: 123 }\n` |
| `Binder.ResolveEndpoint` | lib/socketserver.js:15 | the endpoint in use is never falsy; a truthy configured endpoint is kept; an absent or falsy one (the empty path) becomes `/tmp/winston.sock` |
| `Binder.Startup` | lib/socketserver.js:40-48 | startup begins with the probe and ends by listening on the endpoint, and unlinks exactly when the probe failed and the endpoint is not an object; `StartupShape` and the three case lemmas give the full sequences |
| `Binder.StartupShape` | lib/socketserver.js:40-48 | startup probes the endpoint first, ends with create-server then listen on that endpoint, listens once, and touches no other endpoint |
| `Binder.ConnectedListens` | lib/socketserver.js:41 | a successful probe leads to create-server and listen with no unlink |
| `Binder.ObjectEndpointListens` | lib/socketserver.js:42-43 | a failed probe of an object endpoint leads straight to create-server and listen |
| `Binder.StalePathUnlinkedThenListens` | lib/socketserver.js:45-47 | a failed probe of a socket path unlinks it, then creates the server and listens, whatever the unlink reported |
| `FanOut.JoinAfter` | lib/socketserver.js:83-89 | the `async.each` join: no legs completes at once without error; a completed join failed iff a report received by then failed; a pending join has seen no failure and fewer reports than legs |
| `FanOut.Await` | lib/socketserver.js:83-89 | while waiting for the remaining successes: completion comes at one of the reports, with an error iff a report up to it failed; pending means no failure and too few reports |
| `FanOut.JoinWaitsForAllOk` | lib/socketserver.js:83-89 | while every reported write succeeded, the join completes exactly when all legs have reported, and without error |
| `FanOut.JoinSettled` | lib/socketserver.js:83-88 | once every leg has reported, the join has completed, with an error iff some write failed |
| `FanOut.JoinCompletesOnce` | lib/socketserver.js:83-89 | once completed, later reports do not change the join's result |
| `FanOut.CompletionAfterAllLegs` | lib/socketserver.js:85-89 | after all legs report, `'logged'` is emitted, then one callback with a null error and success iff no write failed |
| `FanOut.EmptyBroadcastSucceeds` | lib/socketserver.js:83-89 | with no sockets the log call completes at once with success |
| `FanOut.NothingBeforeLastSuccess` | spec/socketserver.spec.js:62-67 | while a successful leg is outstanding, neither `'logged'` nor the callback happens |
| `SocketServer.OrDefault` | lib/socketserver.js:14-16 | the JavaScript-or default of a string option: a non-empty option is kept, an absent or empty one gives the fallback, so the result is never empty when the fallback is not |
| `SocketServer.Targets` | lib/socketserver.js:77-81 | the snapshot has as many sockets as the registry has entries when all IDs lie below the counter; `SnapshotCoversRegistry` places each one |
| `SocketServer.IdsBelow` | lib/socketserver.js:79-81 | the enumerated IDs are exactly the registered IDs in range |
| `SocketServer.IdsBelowAscending` | lib/socketserver.js:79-81 | the IDs are enumerated in strictly ascending order |
| `SocketServer.SnapshotCoversRegistry` | lib/socketserver.js:77-81 | the snapshot lists every registered socket exactly once, one position per ID |
| `SocketServer.AcceptAppendsTarget` | lib/socketserver.js:51-55 | after an accept, the snapshot is the old one with the new socket appended |
| `SocketServer.IdsBelowRemove` | lib/socketserver.js:61-63 | after deleting an ID, the enumerated IDs are the old ones with that ID taken out |
| `SocketServer.CloseDropsTarget` | lib/socketserver.js:61-63 | after a close, the snapshot is the old one without that connection's socket, the others in the same order |
| `SocketServer.BroadcastReachesEachOnce` | lib/socketserver.js:83-84 | every registered socket gets exactly one write, all writes carry the same line, and nothing else is written to |
| `SocketServer.BroadcastCompletes` | lib/socketserver.js:77-89 | for the writes of one log call: nothing is emitted while every reported write succeeded and some socket has not reported; once every registered socket has reported, `'logged'` then the callback with a null error and success iff no write failed |
| `SocketServer.Server.constructor` | lib/socketserver.js:11-22 | defaults `silly`, `/tmp/winston.sock`, `socket server`; counter at 1; empty registry |
| `SocketServer.Server.Accept` | lib/socketserver.js:51-55 | the socket is stored under the old counter value, which was never handed out; the counter grows by exactly 1; no other entry changes |
| `SocketServer.Server.OnClose` | lib/socketserver.js:61-63 | exactly that ID is deleted; every other entry and the counter are unchanged |
| `SocketServer.Server.OnError` | lib/socketserver.js:57-59 | a socket error leaves the registry and the counter unchanged |
| `SocketServer.Server.Snapshot` | lib/socketserver.js:77-81 | the list built by the loop is the registered sockets in ascending ID order |
| `SocketServer.Server.Log` | lib/socketserver.js:72-84 | the line is the composed line and the writes are one write of it per snapshotted socket, as many as there are registered sockets |
| `SocketServer.LogsToSockets` | spec/socketserver.spec.js:47-80 | with two accepted sockets the first log call writes `debug: message. { a: 123 }\n` to both; after the first socket errors and closes the second call writes `debug: message 2. { a: 123 }\n` to the second socket only |
| `SocketServer.BroadcastToBoth` | spec/socketserver.spec.js:56-67 | the line goes to both sockets; nothing is emitted before any write reports or after only one has, and `'logged'` and a successful callback come once both have |
| `SocketServer.CloseThenLog` | spec/socketserver.spec.js:69-79 | after the error and close of the first socket the second line is written to the second socket only, and the call completes successfully once that write reports |

## Left out

- The network and file-system calls (`net.connect`, `createServer`, `listen`, `fs.unlink`, `socket.write`) are foreign I/O: the binder yields the list of calls it makes, and a write is a `Write(socket, payload)` value whose outcome is an input.
- The metadata pretty-printer (`util.inspect(meta, true, 5)`) is a reflection-based library routine: its output is an input string, `None` when the metadata is falsy.
- `FanOut.JoinAfter` models the `async.each` library only through its completion rule; when a leg fails, it says nothing about waiting for the other legs, since the library does not wait.
- The `\s` class is that of current ECMAScript; U+180E, which some older engines also matched, is not included.
- Strings are sequences of Unicode scalar values, not UTF-16 code units.
- Concurrency and event-loop interleaving: every accept, close, error and log call is one atomic step on the registry.
- The inheritance from the winston transport and the registration in `winston.transports` are framework glue. `'logged'` appears only as an event in the completion sequence.
- A probe socket that reports an error after having connected would make the source unlink the path of the live server and then create a second server; the binder models a probe with one outcome.
- The `stub` helper of the test file is test scaffolding.
- A numeric endpoint (a port number passed as the path) is not modelled: its `typeof` is not 'object', so the source would call `fs.unlink` with a number, which Node's file-system module rejects by throwing before `_makeServer` runs.
- `Binder.StalePathUnlinkedThenListens` assumes an unlink that always calls back (as the file system's asynchronous unlink does for a string path); a synchronous throw from unlink is not modelled.
- `SocketServer.Server.Accept`: the counter is an unbounded natural number. In the source it is a JavaScript number, so past 2^53 the increment stops changing it and IDs would repeat; the model's "never reused" holds only below that bound.
