# Logentries log4net appender — a Dafny model

This project models the shipping logic of the Logentries appender for log4net, the
class `LogentriesAppender` in `src/LogentriesAppender.cs`. The appender
ships log events to the Logentries service. Its parts:

- **Producer side.** `Append` renders an event, trims its trailing LFs and
  queues it with `addLine`. In sequential use `addLine` never blocks: when
  the bounded queue (32768 lines) is full, it drops the oldest line.
- **Start gate.** The first `Append` whose `checkCredentials` passes starts
  the background worker. The worker is started at most once.
- **Checks.** `checkCredentials` checks the token (token mode) or the account
  key and location (HTTP PUT mode). When a check fails it falls back to the
  application settings, and it overwrites fields as a side effect.
  `checkValidUUID` rejects the empty string and otherwise defers to
  `Guid.TryParse`.
- **Connection manager.** `openConnection` creates the client on first use,
  connects, and in HTTP PUT mode writes the request line
  `PUT /<key>/hosts/<location>/?realtime=1 HTTP/1.1\r\n\r\n`.
  `reopenConnection` retries `openConnection` with capped exponential
  back-off: the base starts at 100 ms, is doubled and capped at 10000 ms
  before each sleep, and each sleep is the base plus a random amount below
  the base.
- **Worker.** `run_loop` connects, then repeats: take the oldest line,
  replace every `Environment.NewLine` by U+2028, prefix the token in token
  mode, terminate with LF, and write. A failed write reconnects and writes
  the same frame again.
- **Port choice.** The client picks port 10000, 20000, 80 or 443 from the
  mode and the TLS choice.

The modules, one per file:

| module | file | form |
|---|---|---|
| `Framing` | framing.dfy | functions and lemmas: NewLine replacement, frame, TrimEnd, request line and a parser for it |
| `Backoff` | backoff.dfy | the delay sequence of one reopenConnection call |
| `Endpoint` | endpoint.dfy | the port table |
| `Credentials` | credentials.dfy | checkCredentials / checkValidUUID as a pure function of the fields and the settings |
| `DeliveryQueue` | delivery_queue.dfy | the overflow policy as a function; the BlockingCollection as a class |
| `Transport` | transport.dfy | the LogentriesTcpClient as a class |
| `Outcomes` | outcomes.dfy | scripts of I/O outcomes (`FirstTrue`, `Repeat`) |
| `LogentriesAppender` | appender.dfy | the appender as a class: Append, addLine, checkCredentials, the connection methods and run_loop |

### How the environment is modelled

- **Network.** Every connect attempt and every write has its outcome given
  by a script of booleans. `true` means the call returned; `false` means it
  threw the IOException that makes run_loop reconnect and retry.
- **What was sent.** `Transport.TcpClient.received` records, in order,
  every write that went through. The appender's ghost `Sent()` exposes it.
  The contracts of the connection methods and the worker state `Sent()`
  exactly: which request lines and frames reached the endpoint, in which
  order.
- **Worker loops.** `ReopenConnection`, `WriteUntilSent` and `ShipAll` are
  the loops of `reopenConnection` and `run_loop`, written as `while` loops.
  Each is proved against a specification function of its scripts:
  - `FirstTrue`: the index of the first success;
  - `Delay`: the back-off base;
  - `Delivery` and `Transcript`: what the endpoint receives.
- **Random jitter.** `random.Next(root_delay)` is an arbitrary value in
  `[0, root_delay)` chosen with `:|`. The contract holds for every choice.
- **GUID parsing.** `Guid.TryParse` is the set `guids` of strings it
  accepts.
- **Application settings.** These are a `map<string, string>` handed to
  `CheckCredentials` and `Append`.
- **Host newline.** `Environment.NewLine` is the datatype
  `NewLine = Lf | CrLf`.

### Behaviour the code shows that a reader might not expect

- **A bare LF survives on CR LF hosts.** The replacement looks only for the
  host's newline, so on a `\r\n` host a bare LF inside an event is not
  replaced. The frame then spans two physical lines
  (`Framing.BareLfSurvivesOnCrLfHosts`). On LF hosts a frame is one
  physical line whenever the token holds no LF (`Framing.FrameIsOneLine`).
  That condition is not guaranteed: `Guid.TryParse` trims surrounding white
  space, so a token with a trailing LF can pass `checkValidUUID`, and it then
  puts an LF before the end of every token-mode frame, which then spans at
  least two physical lines (`Framing.TokenWithLfSplitsFrame`).
- **checkCredentials can reject, then accept.** In HTTP PUT mode a failed
  check can still overwrite the key with the settings' key. If that leaves a
  usable key and location, the next `Append` accepts without any help from
  the settings (`Credentials.HttpRecheckAccepts`). Two checks always reach
  a fixpoint (`Credentials.CheckSettles`).
- **Reconnect starts from MIN_DELAY again.** Every reconnect starts its
  back-off at `MIN_DELAY`, including one made after a failed write. The
  longest base is reached on the seventh failed attempt of one call
  (`Backoff.DelaySaturates`).

## Model

| member | source | states |
|---|---|---|
| Framing.ReplaceAll | src/LogentriesAppender.cs:294 | String.Replace: every occurrence of the pattern, scanned left to right without overlap, becomes one U+2028; computes only, its properties are RestoreReplaced, ReplacedHasNoPattern and ReplaceIdentity |
| Framing.RestoreReplaced | src/LogentriesAppender.cs:294 | turning every U+2028 back into the newline text gives the original line, when the line holds no U+2028: each newline becomes exactly one U+2028 and every other character is kept |
| Framing.LineText | src/LogentriesAppender.cs:294 | the line with the host's Environment.NewLine replaced by U+2028; computes only, its properties are LineTextRestores |
| Framing.LineTextRestores | src/LogentriesAppender.cs:294 | the wire text of a line holds no host newline, and the line is read back from it by Restore when it holds no U+2028 of its own |
| Framing.Frame | src/LogentriesAppender.cs:296 | the token in token mode, the line's wire text, then LF; computes only, its properties are FrameFormat, FrameDecodes, FrameIsOneLine and FrameIsNeverHeader |
| Framing.FrameDecodes | src/LogentriesAppender.cs:292-296 | when the line holds no U+2028 of its own, it is read back from its frame by dropping the token and the final LF and restoring the newlines |
| Framing.TokenWithLfSplitsFrame | src/LogentriesAppender.cs:296 | for every line and host newline, a token ending in LF puts an LF before the final LF of the token-mode frame |
| Framing.Header | src/LogentriesAppender.cs:228 | the PUT request line of a key and a location; computes only, its properties are HeaderRoundTrip and ParseHeaderSound |
| Framing.ReplacedHasNoPattern | src/LogentriesAppender.cs:294 | after replacing NewLine by U+2028 no occurrence of the newline text is left in the line |
| Framing.ReplaceIdentity | src/LogentriesAppender.cs:294 | a line that holds no newline text is left unchanged by the replacement |
| Framing.FrameFormat | src/LogentriesAppender.cs:292-296 | a frame is the token (token mode only), then the line's text, then LF; the text holds no host newline; a line without one is sent verbatim |
| Framing.FrameIsOneLine | src/LogentriesAppender.cs:294-296 | on an LF host, with a token free of LF, the only LF of a frame is its last character |
| Framing.BareLfSurvivesOnCrLfHosts | src/LogentriesAppender.cs:294-296 | on a CR LF host, the line "a\nb" goes out as "a\nb\n": the embedded LF is kept |
| Framing.TokenFrameExample | src/LogentriesAppender.cs:296 | in token mode the frame of "hello" is the token followed by "hello\n" |
| Framing.HttpFrameExample | src/LogentriesAppender.cs:296 | in HTTP PUT mode the frame of "world" is "world\n", with no token |
| Framing.TrimEnd | src/LogentriesAppender.cs:348 | the result is a prefix of the event, does not end in LF, and everything removed is LF |
| Framing.TrimEndIdempotent | src/LogentriesAppender.cs:348 | trimming a trimmed event changes nothing |
| Framing.TrimEach | src/LogentriesAppender.cs:354-360 | a batch of events is trimmed element by element, keeping length and order |
| Framing.HeaderRoundTrip | src/LogentriesAppender.cs:228 | the request line gives back its key and location when neither holds '/' |
| Framing.ParseHeaderSound | src/LogentriesAppender.cs:228 | any text parsed as a request line is exactly the request line of the key and location parsed |
| Framing.FrameIsNeverHeader | src/LogentriesAppender.cs:226-230 | no frame equals a request line when the token has no CR or LF |
| Backoff.NextDelay | src/LogentriesAppender.cs:259-261 | one step of root_delay, doubled and then capped at MAX_DELAY; computes only, its properties are NextDelayBounds and DelayClosedForm |
| Backoff.NextDelayBounds | src/LogentriesAppender.cs:259-261 | a step stays at most MAX_DELAY, keeps a base of at least MIN_DELAY, and grows the base strictly until it reaches the cap |
| Backoff.Delay | src/LogentriesAppender.cs:242-261 | after n failed attempts of one call the base lies between MIN_DELAY and MAX_DELAY |
| Backoff.DelayClosedForm | src/LogentriesAppender.cs:259-261 | the base after n failed attempts is min(100 * 2^n, 10000) |
| Backoff.DelaySaturates | src/LogentriesAppender.cs:259-261 | from the seventh failed attempt on the base is MAX_DELAY |
| Backoff.DelaySchedule | src/LogentriesAppender.cs:82-84 | the bases of the first sleeps are 200, 400, 800, 1600, 3200, 6400, then 10000 |
| Backoff.DelayMonotone | src/LogentriesAppender.cs:259-261 | the base never decreases from one attempt to the next |
| Endpoint.Port | src/LogentriesAppender.cs:473-480 | the port is 80 or 443 exactly in HTTP PUT mode, and 20000 or 443 exactly with TLS |
| Endpoint.PortInjective | src/LogentriesAppender.cs:473-480 | different mode or TLS choices never share a port |
| Endpoint.PortTable | src/LogentriesAppender.cs:70-76 | token 10000, token TLS 20000, HTTP 80, HTTP SSL 443 |
| Credentials.Check | src/LogentriesAppender.cs:372-407 | acceptance implies a usable identity; a usable identity is accepted unchanged; token mode accepts exactly when the token or the LOGENTRIES_TOKEN setting is a UUID, and replaces the token only in the latter case; HTTP PUT mode accepts exactly when key and location are usable or the key and location settings are; the key is overwritten by a UUID key setting whenever the direct check fails; the location is overwritten by LOGENTRIES_LOCATION exactly when the direct check fails, the key setting is a UUID and the location setting is present and non-empty, and is kept otherwise |
| Credentials.ValidUuid | src/LogentriesAppender.cs:409-417 | checkValidUUID: not empty, and accepted by Guid.TryParse; a predicate, its property is EmptyIsNeverValid |
| Credentials.EmptyIsNeverValid | src/LogentriesAppender.cs:409-417 | checkValidUUID rejects the empty string, whatever Guid.TryParse accepts |
| Credentials.TokenCheckIdempotent | src/LogentriesAppender.cs:376-389 | in token mode a second check gives the same verdict and leaves the fields as the first left them |
| Credentials.HttpRecheckAccepts | src/LogentriesAppender.cs:391-406 | an HTTP PUT check can reject yet leave a usable key and location behind, so the next check accepts |
| Credentials.CheckSettles | src/LogentriesAppender.cs:372-407 | after two checks a further check returns the same verdict and the same fields |
| DeliveryQueue.Offer | src/LogentriesAppender.cs:323-334 | addLine leaves the newest lines of the old queue plus the new line, as many as fit |
| DeliveryQueue.OfferAll | src/LogentriesAppender.cs:323-334 | addLine for each line in turn; the queue never holds more than its capacity |
| DeliveryQueue.OfferAllKeepsNewest | src/LogentriesAppender.cs:323-334 | after any number of addLine calls the queue holds the newest lines of old queue plus added lines, in order, as many as fit |
| DeliveryQueue.OfferAllWithoutOverflow | src/LogentriesAppender.cs:323-334 | below capacity nothing is lost: the queue is the old lines followed by the new ones |
| DeliveryQueue.OfferWhenFull | src/LogentriesAppender.cs:328-331 | a full queue loses exactly its oldest line and gains the new one last |
| DeliveryQueue.BoundedQueue.constructor | src/LogentriesAppender.cs:208 | the queue starts empty with the given capacity |
| DeliveryQueue.BoundedQueue.TryAdd | src/LogentriesAppender.cs:328 | TryAdd succeeds exactly when the queue is below capacity and then appends the line |
| DeliveryQueue.BoundedQueue.Take | src/LogentriesAppender.cs:292 | Take returns and removes the oldest line |
| Transport.TcpClient.constructor | src/LogentriesAppender.cs:473-489 | the client keeps the TLS choice, picks the port from the port table, and records api.logentries.com as its host |
| Transport.TcpClient.Connect | src/LogentriesAppender.cs:487-500 | the client is connected exactly when the attempt succeeded; nothing is sent |
| Transport.TcpClient.Write | src/LogentriesAppender.cs:502-505 | data reaches the endpoint exactly when the write succeeds on an open connection |
| Transport.TcpClient.Close | src/LogentriesAppender.cs:512-522 | closing disconnects and never fails |
| LogentriesAppender.TokenTranscriptIsFrames | src/LogentriesAppender.cs:296-314 | in token mode the endpoint receives each queued line's frame exactly once, in queue order, however many writes failed |
| LogentriesAppender.Handshake | src/LogentriesAppender.cs:226-230 | what a successful openConnection sends: the request line in HTTP PUT mode, nothing in token mode; computes only, its properties are TokenTranscriptIsFrames and HttpTranscriptFrames |
| LogentriesAppender.HttpTranscriptFrames | src/LogentriesAppender.cs:226-314 | in HTTP PUT mode the endpoint receives each queued line's frame exactly once, in queue order, with only request lines between them, however many writes failed |
| LogentriesAppender.DeliveryWithoutHeaders | src/LogentriesAppender.cs:300-314 | the retries of one HTTP PUT line send request lines only, then the frame once |
| LogentriesAppender.Gate | src/LogentriesAppender.cs:336-360 | the start gate over a batch: a started appender is left as it is, and a first event whose check accepts starts it with the destination the check left |
| LogentriesAppender.GateStuck | src/LogentriesAppender.cs:372-407 | a destination that the check rejects and leaves unchanged is never started by any number of events |
| LogentriesAppender.GateSettles | src/LogentriesAppender.cs:372-407 | with fixed settings a batch decides the gate within its first two events |
| LogentriesAppender.FailedWritesAt | src/LogentriesAppender.cs:301-314 | the retry count reported for a line is the number of writes that failed before its first successful write |
| LogentriesAppender.Appender.constructor | src/LogentriesAppender.cs:206-213 | a new appender has an empty queue of capacity QUEUE_SIZE, no client, and a worker not started |
| LogentriesAppender.Appender.AddLine | src/LogentriesAppender.cs:323-334 | the queue becomes Offer(old queue, line): the oldest line goes only when the queue is full |
| LogentriesAppender.Appender.CheckCredentials | src/LogentriesAppender.cs:372-407 | the verdict and the fields left behind are exactly those of Credentials.Check on the old fields |
| LogentriesAppender.Appender.Append | src/LogentriesAppender.cs:336-352 | before the start the worker starts exactly when the check accepts, at most once ever; afterwards the fields stay; the trimmed event is offered to the queue |
| LogentriesAppender.Appender.AppendAll | src/LogentriesAppender.cs:354-360 | a batch leaves the queue as OfferAll of the trimmed events, in order; whether the worker has started and the token, key and location afterwards are those of Gate over the batch |
| LogentriesAppender.Appender.OpenConnection | src/LogentriesAppender.cs:217-236 | the client is created only when missing; it is connected exactly when the attempt succeeds, and then in HTTP PUT mode the request line is sent |
| LogentriesAppender.Appender.CloseConnection | src/LogentriesAppender.cs:275-279 | an existing client ends up disconnected; nothing is sent |
| LogentriesAppender.Appender.ReopenConnection | src/LogentriesAppender.cs:238-273 | attempts stop at the first success of the script; each sleep's base is Delay(i+1) and its length lies in [base, 2*base); the endpoint gets one request line in HTTP PUT mode and nothing else |
| LogentriesAppender.Appender.WriteUntilSent | src/LogentriesAppender.cs:300-314 | writes repeat until the first successful one; each failed write costs one reconnect, whose request line precedes the frame in HTTP PUT mode (nothing in token mode) |
| LogentriesAppender.Appender.ShipNext | src/LogentriesAppender.cs:291-314 | the oldest line is removed and delivered as its frame, after one request line per failed write in HTTP PUT mode (nothing in token mode) |
| LogentriesAppender.Appender.ShipAll | src/LogentriesAppender.cs:289-315 | the first lines are delivered in queue order; the endpoint receives exactly their Transcript |
| LogentriesAppender.Appender.RunLoop | src/LogentriesAppender.cs:281-321 | connect, then deliver the first lines in queue order; the endpoint receives the request line in HTTP PUT mode (nothing in token mode), then exactly the Transcript of those lines |

## Left out

- TCP sockets, the TLS handshake and the certificate-pinning callback are out of scope, because they are I/O. Connect and Write succeed or fail as a script says.
- Partial writes and delivery acknowledgement are not modelled. A write that throws is taken to have sent nothing, and a write that returns is taken to have delivered the whole frame. In the source a throwing Stream.Write can have sent part of the frame before run_loop sends it again, and a returned write has only handed the bytes to the socket. So "exactly once" in TokenTranscriptIsFrames and HttpTranscriptFrames counts whole successful writes.
- The header write inside openConnection is assumed to succeed once Connect has, because a failure there throws the same IOException as a failed connect and is modelled as a failed attempt.
- The worker thread, `thread.Start`, `OnClose` and `thread.Interrupt` (with the ThreadInterruptedException path) are left out, because the model has no concurrency. The worker runs as a sequential method, `RunLoop`, after the appender has started. `workerStarts` counts the starts.
- The blocking of `BlockingCollection.Take` on an empty queue is not modelled, because it needs concurrency. `ShipAll` delivers only lines that are already queued.
- The second TryAdd of addLine, and its QUEUE_OVERFLOW message, cannot fail in sequential use, because taking a line makes room. Debug messages (`WriteDebugMessages`) are left out as I/O.
- `Thread.Sleep` is left out: the waits are returned as values and not slept.
- `System.Random` is left out. Its draw is an arbitrary value below the base.
- The exact formats `Guid.TryParse` accepts are not modelled. They are the parameter set `guids`.
- The UTF-8 and ASCII byte encoding is left out: frames and the request line are strings.
- `ConfigurationManager.AppSettings` is a map, and `SubstituteAppSetting` is not modelled, because it reads configuration.
- `RenderLoggingEvent` and the log4net base class are left out, because they are outside the appender's own logic. `Append` takes the rendered text.
- The `HttpPut`, `Ssl` and `Debug` property setters are not modelled. `HttpPut` and `Ssl` are fixed when the appender is built, which is how a configured appender uses them.
- LogentriesAppender.Appender.ReopenConnection: the infinite loop of a server that never accepts is not modelled. Every connect script holds a success, and the reconnects of a plan are `Feasible`.
- LogentriesAppender.Appender.WriteUntilSent: the endless retry of a line whose writes never succeed is not modelled. Its plan must be `Feasible`: the write script holds a success and every reconnect before it connects.
- LogentriesAppender.Appender.ShipNext: as for WriteUntilSent, only `Feasible` plans are covered, so a line that never goes through is excluded.
- LogentriesAppender.Appender.ShipAll: as for WriteUntilSent, every plan must be `Feasible`, so a worker stuck forever on one line is excluded.
- Exceptions other than IOException from a write are not modelled. run_loop retries only on IOException (src/LogentriesAppender.cs:307); any other exception leaves the loop and ends the worker thread.
- LogentriesAppender.Appender.RunLoop: the worker delivers as many lines as the plans given. The unbounded outer loop is limited to them.
