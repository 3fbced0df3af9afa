# A verified model of node-ipc

node-ipc carries JSON events between processes. This project models its hardest
parts in Dafny and proves what they are for, for every input, every run and every
crash point:

- **Framing** (`Framing.dfy`, with the split itself in module `Split`). One reading
  loop under the Fast, Guarded and Assured policies. Chunking never changes what Fast
  reads. For Guarded it can: the check of the retained text counts the bytes of a
  partial delimiter, and the theorem gives the exact condition.
- **Datagrams**: fragmentation (`Fragments.dfy`), the reassembler
  (`Reassembler.dfy`), delivery over an unordered network that repeats datagrams
  (`Delivery.dfy`), the windowed protocol (`Window.dfy`, with the messages in
  `Protocol.dfy`), and the two together in the datagram client (`Accounting.dfy`).
- **Connections**: the reconnecting client (`Reconnect.dfy`), the registry of clients
  (`Registry.dfy`), the datagram peer table and its one-entry cache (`Peers.dfy`), the
  incomplete-message timer (`MessageTimer.dfy`).
- **Counterbalancing**: Williams orders (`Williams.dfy`), the plan of all cohorts
  (`CohortPlan.dfy`), and the order it runs in (`PlanOrder.dfy`).
- **The append-only merge** of benchmark results as file steps with failures and
  crashes (`Merge.dfy`): when it has a plan (`MergePlan.dfy`), what a crash leaves
  behind (`CrashSafety.dfy`), and when its rollback is clean (`Rollback.dfy`).
- **Two algorithms**: the lockfile closure (`Closure.dfy`) and the expected wire bytes
  (`WireBytes.dfy`).

`Common.dfy`, `Grouping.dfy` and `Json.dfy` hold what several of these share;
`JsonReader.dfy` says what a JSON text means.

Code that updates state in place is a class whose methods are proved equal to a step
function on values, and loops stay loops with invariants. The theorems are about those
step functions and the runs they make.

## Where the code differs from its description

Each is a theorem with the exact condition under which the described behaviour holds,
and a lemma with an input on the other side.

- Guarded framing with a delimiter of several characters depends on the chunking when
  a frame fits `maxMessageSize` but the frame with all but the last delimiter character
  does not (`GuardedChunkIndependence`, `RoundTripIff`; input: `ChunkingMatters`).
- `README.md:307` describes `messageTimeout` as the time allowed for an incomplete
  frame. The timer is not restarted when one frame completes and another begins in the
  same read, so it can expire early for the second (`TimerMeasuresIff`; input:
  `TimerExpiresEarly`).
- A protocol violation does not stop a retry timer that is already armed
  (`ViolationReconnectsIff`; run: `ViolationWithArmedTimer`).
- `writeAtomic` can fail after its rename took effect, when removing the temporary
  file fails. `manifestInstalled` is still false then, so the rollback removes result
  files that the new manifest names (`ManifestIntactIff`, `RerunRecoversIff`; schedule:
  `CanBeTorn`).
- `resolveDependency` passes over a directory when two `/node_modules/` markers of a
  path share a slash (`EnclosingExactIff`; path: `PassedOver`).

## Exactly what is described

- `benchmark/competitors/README.md:84` accepts repeats of fragments during an active
  assembly, and says that one after completion is not counted as another round trip. A
  later repeat opens its message anew (`ExactlyOnceIff`, `ReturnedTwice`); when that
  completes again within the window's responses, `windowed` ends the run
  (`WindowedOverDatagrams`); when it only leaves a fragment behind, `windowed` does not
  see it and closing the client does (`LateFragmentStays`, `FinishedIsExactlyOnceIff`).
- `SECURITY.md:29` resets the frame state of a UDP peer after an error. The peer is kept,
  and its next datagram is framed as a first one (`ErrorForgets`); it agrees with a
  stream connection exactly until a datagram after a refused one delivers something
  (`AloneIsAStream`).
- `windowed` with no frames would send one request and end in an accounting mismatch
  (`Windowed`); `benchmark/competitors/run.js:37-43` refuses such counts before.

## How values are modelled

`JSON.parse`, the schema check of results and SHA-256 are function parameters, so the
theorems hold for all of them; where a parser must invert the printer, the statement
asks it of exactly the texts concerned. The printer (`Json.Stringify`) is concrete, with
numbers limited to integers, and so is a reader of JSON text (`JsonReader.Read`), written
from the grammar of RFC 8259 for the texts without white space between tokens. It undoes
the printer on every value, so with it as the parser the round trip asks for nothing. Text is a sequence of code points; byte sizes follow UTF-8,
and the event-name limit counts UTF-16 units, as `String.length` does. Integers are
unbounded, with `IsSafeInteger` where the source checks it. Sockets, timers and the file
system are events and steps that may come in any order the runtime allows.

## Model

| member | source | states |
|---|---|---|
| `Split.IndexOfIsFirst` | entities/EventParser.js:79 | `indexOf` gives the first occurrence from a position on, and -1 exactly when there is none |
| `Split.CutIsTheCleanDecomposition` | entities/EventParser.js:74-108 | the leftmost-first split is the one and only way to write a stream as frames with the delimiter first occurring at their ends, and a rest without it; printing and splitting undo each other |
| `Split.CutAppend` | entities/EventParser.js:75-87 | splitting a text, then its rest together with more text, is splitting the whole, for delimiters of any length |
| `Split.RestIsPartial` | entities/EventParser.js:168-169 | what is retained is the beginning of the next frame with at most a proper part of its delimiter |
| `Framing.ReadFast` | entities/EventParser.js:74-88 | Fast `read` delivers the decoded frames of the split up to the first undecodable one, and keeps the rest of the split or throws |
| `Framing.ReadGuarded` | entities/EventParser.js:153-171 | Guarded `read` does the same with its size, object and event-name checks, including the check of the remainder |
| `Framing.DecodeMessage` | entities/EventParser.js:190-213 | what Guarded makes of a frame when size is not asked: the message, or the code of the first check to fail among JSON, object, name, length, unsafe, reserved and allow-list |
| `Framing.Push` | entities/EventParser.js:90-108 | `push` computes the same split as `read`, without decoding |
| `Framing.ReceiveTwice` | dao/client.js:232-238 | two chunks end the connection in the same state as one, whenever every frame reached leaves room for a partial delimiter |
| `Framing.FeedIsOneReceive` | dao/client.js:232-238 | from any open connection, any number of chunks ends as the concatenated chunk does, under the same condition |
| `Framing.FastChunkIndependence` | entities/EventParser.js:74-88 | Fast: every chunking of a stream delivers the same messages and ends with the same remainder or error, for every non-empty delimiter |
| `Framing.DeliveredPrefix` | entities/EventParser.js:81-85 | what is delivered are the decoded frames before the first refused one, whose error is the one thrown; without an error, all |
| `Framing.DeliveredUpToFirstError` | entities/EventParser.js:81-85 | exactly k messages are delivered before an error if and only if frame k is the first that is refused |
| `Framing.GuardedChunkIndependence` | entities/EventParser.js:153-171 | Guarded: all chunkings of a stream end alike if and only if every frame that is reached is too large by itself or still fits with all but the last character of the delimiter |
| `Framing.BadChunks` | entities/EventParser.js:168-169 | for every stream that fails this condition, a chunking of it that ends otherwise than the whole stream does |
| `Framing.ChunkingMatters` | entities/EventParser.js:168-169 | a message of exactly the permitted size whose two-character delimiter is cut in half: the whole stream delivers it, the two chunks are refused |
| `Framing.OneCharacterDelimiter` | entities/EventParser.js:153-171 | with a delimiter of one character, every chunking ends as the whole stream does |
| `Framing.SlackIsEnough` | entities/EventParser.js:153-171 | so it does when every frame leaves `delimiterBytes - 1` bytes of slack under `maxMessageSize` |
| `Framing.GuardedRefinesFast` | entities/EventParser.js:153-198 | on the same chunks Guarded delivers a prefix of what Fast delivers; without an error they agree in everything, and the retained text is inside `maxMessageSize` |
| `Framing.OnlyPermittedDelivered` | entities/EventParser.js:200-240 | over any chunks of any stream, only messages whose type is a safe, permitted name reach the application; Assured never passes a reserved one |
| `Framing.HandedOnIff` | entities/EventParser.js:185-213 | a frame is handed on if and only if it fits, parses to an object and has a permitted type |
| `Framing.RefusalCodes` | entities/EventParser.js:185-240 | the exact condition, over the frame alone, of each of the codes a refused frame gets |
| `Framing.AllHandedOnIff` | entities/EventParser.js:160-166 | at least n frames of a read are handed on if and only if the first n all fit and are objects of permitted types |
| `Framing.HandleEncoded` | entities/EventParser.js:143-151 | the reader accepts each frame the encoder with the same limits accepts, given that the parser reads it back |
| `Framing.EncodedStream` | entities/EventParser.js:66-68 | the concatenated frames of any list of events split back into exactly their texts, with an empty rest |
| `Framing.RoundTripIff` | entities/EventParser.js:66-88 | reading encoded events under every chunking gives back the same events and an empty buffer if and only if every frame leaves room for a partial delimiter, which for Fast always holds |
| `Framing.DefaultDelimiterRoundTrip` | entities/EventParser.js:143-171 | with the default form-feed delimiter the round trip holds for every policy, list of accepted events and chunking |
| `Framing.EncodeIff` | entities/EventParser.js:143-151 | what `encode` accepts is what the reader would hand on, Fast accepting all; what it sends reads back as the object of the type and the data and nothing else |
| `Framing.ReaderRoundTripIff` | entities/EventParser.js:66-88 | the round trip under every chunking, with the reader of JSON text as parser and nothing asked of it |
| `Framing.DefaultRoundTrip` | entities/EventParser.js:143-171 | with the default delimiter whatever `encode` accepts arrives, in any chunks, and only that |
| `JsonReader.ReadStringify` | entities/EventParser.js:66-68 | reading the printed text of any value gives the value back: elements, members, escapes and digits are told apart |
| `JsonReader.StringifyInjective` | entities/EventParser.js:66-68 | two values have the same text if and only if they are equal |
| `Json.StringifyPrintable` | entities/EventParser.js:66-68 | JSON text has no control characters, so the form feed cannot occur in it (section 7 of RFC 8259) |
| `Fragments.FragmentCount` | benchmark/competitors/lib/udp.js:11-16 | the fewest chunks of 1024 bytes that hold the message, from 1 to 64 |
| `Fragments.WindowIsLargest` | benchmark/competitors/lib/udp.js:18-26 | the logical window is at least 1, keeps window times fragments at 64 or fewer datagrams, and no larger window up to the requested one does |
| `Fragments.LogicalWindowRefuses` | benchmark/competitors/lib/udp.js:18-26 | which requests and sizes are refused, each with its error |
| `Fragments.FragmentMessageAccepts` | benchmark/competitors/lib/udp.js:34-44 | a message is fragmented if and only if the direction is q or r, its sequence is eight hexadecimal digits and its text is ASCII of legal size |
| `Fragments.FragmentMessageRefusals` | benchmark/competitors/lib/udp.js:34-44 | the exact condition of each error of `fragmentMessage` |
| `Fragments.FragmentsAreSound` | benchmark/competitors/lib/udp.js:45-53 | the chunks in order make up the message's text, and every fragment passes the receiver's check and carries the message's sequence and size |
| `Fragments.CheckPassesIff` | benchmark/competitors/lib/udp.js:81-118 | the checks pass exactly the fragments with a known version and direction, a proper sequence, a legal size, as many fragments as 1024-byte chunks need, an index below that, and an ASCII chunk of the size due at its place |
| `Fragments.CheckRefusals` | benchmark/competitors/lib/udp.js:81-118 | the exact condition of each error, the first that applies |
| `Fragments.FragmentFits` | benchmark/competitors/lib/udp.js:56-68 | a checked fragment with at most eight characters to escape is at most 1200 bytes as JSON and inside the node-ipc event envelope |
| `Fragments.BenchFragmentsFit` | benchmark/competitors/lib/udp.js:34-68 | for every legal size and sequence number, every fragment of a benchmark message fits in 1200 bytes, bare and enveloped |
| `Protocol.SequenceRoundTrip` | benchmark/competitors/protocol.js:8-13 | every unsigned 32-bit number is written in exactly eight hexadecimal digits, which read back to it |
| `Protocol.MessageText` | benchmark/competitors/protocol.js:19-31 | the exact text of a benchmark message |
| `Protocol.MessageSize` | benchmark/competitors/protocol.js:19-31 | a benchmark message is ASCII and has exactly the requested bytes, whatever its sequence number |
| `Reassembler.LeadFrom` | benchmark/competitors/lib/udp.js:173-175 | the length of the longest complete prefix of chunks |
| `Reassembler.FragmentReassembler.Accept` | benchmark/competitors/lib/udp.js:137-195 | `accept` changes the table and counters, and returns or throws, as `AcceptStep` says, and keeps the invariant |
| `Reassembler.FragmentReassembler.PlaceFragment` | benchmark/competitors/lib/udp.js:158-195 | storing a chunk: duplicates, conflicts, order counters, the resumed scan of `nextIndex`, completion |
| `Reassembler.FragmentReassembler.Metrics` | benchmark/competitors/lib/udp.js:197-202 | the counters and the number of pending messages |
| `Reassembler.FragmentReassembler.Clear` | benchmark/competitors/lib/udp.js:204-206 | nothing stays pending, the counters stay |
| `Reassembler.LeadResumes` | benchmark/competitors/lib/udp.js:170-175 | going on from the old `nextIndex` after storing any chunk finds the longest complete prefix of all chunks |
| `Reassembler.StoreIsSized` | benchmark/competitors/lib/udp.js:167-175 | storing a checked chunk keeps stored bytes equal to the sum of the chunks, and each chunk at its due size |
| `Reassembler.FullSize` | benchmark/competitors/lib/udp.js:112-118 | k complete chunks of a message hold 1024 k bytes, and all of them exactly the announced bytes |
| `Reassembler.NeverMiscounted` | benchmark/competitors/lib/udp.js:180-184 | the final byte-count error can never fire |
| `Reassembler.AcceptKeepsGood` | benchmark/competitors/lib/udp.js:137-195 | every input, accepted or refused, leaves at most `maxMessages` pending, all well sized, incomplete and with `nextIndex` at the longest complete prefix |
| `Reassembler.AcceptExactly` | benchmark/competitors/lib/udp.js:158-195 | what every input does: a repeat and a conflicting repeat leave all messages as they were; a new chunk is held at its place; the last one missing takes the message out, and what is returned is what the text with every chunk at its place parses to, if it carries the sequence of its key |
| `Reassembler.RefusedExactly` | benchmark/competitors/lib/udp.js:137-156 | which inputs are refused before their chunk is looked at, each with its error, the table unchanged |
| `Reassembler.AcceptConserves` | benchmark/competitors/lib/udp.js:158-195 | one input moves each accepted fragment into the table or out with a message that ends |
| `Reassembler.Conservation` | benchmark/competitors/lib/udp.js:128-202 | over every run, accepted fragments are those of ended messages plus those still stored |
| `Reassembler.AcceptCounts` | benchmark/competitors/lib/udp.js:139-189 | one input moves each counter by what the input is, judged from the chunks held before it, and the peak by the messages pending once it has opened one |
| `Reassembler.CountersAreTrue` | benchmark/competitors/lib/udp.js:128-202 | over every run each counter is the number of inputs it is named after: new fragments, those of them that were not the next one due, repeats, conflicting repeats, messages returned; and the peak is exactly the most pending right after a message opened, within `maxMessages` |
| `Delivery.BenchIsGenuine` | benchmark/competitors/protocol.js:19-31 | the benchmark's own messages meet what the delivery theorems ask of a message |
| `Delivery.ArrivalStep` | benchmark/competitors/lib/udp.js:137-195 | an arrival for a message that is not complete, when there is room, is stored, and returns the message exactly when it was its last missing fragment |
| `Delivery.TableMirrors` | benchmark/competitors/lib/udp.js:137-195 | at every point of every run, repeats and refusals included, the table holds exactly the fragments a plain account of the run holds of open messages |
| `Delivery.EveryArrival` | benchmark/competitors/lib/udp.js:137-195 | every arrival of every run is refused exactly when its message is not open and `maxMessages` are, and returns its message, as sent, exactly when it brings the last missing fragment |
| `Delivery.DeliversOnLastFragment` | benchmark/competitors/lib/udp.js:137-195 | in every interleaving with room to open, and repeats only while open, each arrival returns the message it completes, equal to the one sent, and nothing otherwise |
| `Delivery.NothingRejectedIff` | benchmark/competitors/lib/udp.js:141-144 | while repeats come only for open messages, no arrival is rejected if and only if each message opens while fewer than `maxMessages` are open |
| `Delivery.DeliversExactlyOnce` | benchmark/competitors/lib/udp.js:34-54 | end to end: in every interleaving of all fragments with such repeats and such room, each message is returned exactly once and nothing stays pending |
| `Delivery.LateIsOverdue` | benchmark/competitors/lib/udp.js:139-153 | from the first fragment taken in after its message was complete on, that message has been returned twice or is open again, for good |
| `Delivery.OnceWhenOnTime` | benchmark/competitors/lib/udp.js:176-194 | while nothing is taken in too late, a message taken in completely has been returned exactly once |
| `Delivery.ExactlyOnceIff` | benchmark/competitors/lib/udp.js:137-195 | in every run, each message is returned exactly once and nothing stays pending if and only if every fragment is taken in and none is after its message is complete; what is not taken in are the arrivals that would open a message while `maxMessages` are open |
| `Delivery.ReturnedTwice` | benchmark/competitors/test.js:203-208 | a one-fragment message that arrives twice is returned twice |
| `Delivery.SmallIsOnePiece` | benchmark/competitors/test.js:203-204 | the 64-byte benchmark messages are one-fragment messages, in both directions and for every number |
| `Window.OwnEcho` | benchmark/competitors/protocol.js:48-64 | a request echoed unchanged verifies for its own sequence number and for no other |
| `Window.VerifyIff` | benchmark/competitors/protocol.js:48-64 | a response is accepted for a number if and only if its sequence is the eight digits of it, its payload exactly the x's due, and its printed size the bytes of the run |
| `Window.VerifyReasons` | benchmark/competitors/protocol.js:48-64 | the exact condition of each refusal, a changed payload among them |
| `Window.EchoIsUnique` | benchmark/competitors/protocol.js:52-54 | a message verifies for at most the sequence number it carries |
| `Window.OutstandingDatagrams` | benchmark/competitors/worker.js:144-160 | for every legal size, a window's requests are at most 64 datagrams and at most 256 messages |
| `Window.WindowIsAll` | benchmark/competitors/worker.js:144-160 | the window is the largest that frames, message limit, byte limit and datagrams afford, and 1 when they afford none |
| `Window.SendNext` | benchmark/competitors/worker.js:185-191 | sends the factory's message with the next number exactly when that number is an unsigned 32-bit integer, and books it as pending |
| `Window.FillWindow` | benchmark/competitors/worker.js:192-194 | the window is filled with consecutive requests, and fails exactly when one of their numbers does not fit, after sending those before it |
| `Window.MatchResponse` | benchmark/competitors/worker.js:197-207 | a response is accepted if it is the echo of an open request (in sending order: of the next one), and refused only if it is not; `duplicate` only for a completed number |
| `Window.Windowed` | benchmark/competitors/worker.js:162-227 | returns normally if and only if there is a frame, all numbers fit and the responses answer every request once, each after its send (or in sending order); the responses are then the requests permuted, each with the sequence, payload and size of its request; as many requests are sent as the window allows beyond what was received |
| `Window.OrderIsForced` | benchmark/competitors/worker.js:198-205 | the responses determine which request each answers |
| `Window.NoOrderLeft` | benchmark/competitors/worker.js:198-205 | once a response answers nothing open, no order of answers exists |
| `Window.BooksReceive` | benchmark/competitors/worker.js:207-209 | answering an open request keeps the books: pending holds exactly the open requests under their texts, completed exactly the answered ones |
| `Accounting.RepliesAreCompletions` | benchmark/competitors/adapters/native-dgram.js:153-156 | the inbox receives the completed messages, as sent, in the order they complete |
| `Accounting.CompletionsCount` | benchmark/competitors/adapters/native-dgram.js:153-156 | it receives each message as often as the reassembler returns it |
| `Accounting.WindowedOverDatagrams` | benchmark/competitors/README.md:84 | fed by the reassembler, `windowed` returns normally if and only if the first `frames` completions are of different echoes, each after its request was sent; a message that completes again before that ends the run |
| `Accounting.FinishedIsExactlyOnceIff` | benchmark/competitors/adapters/native-dgram.js:170-178 | when `windowed` has returned every echo has completed, and the run was exactly once with nothing left if and only if nothing is pending at close and the inbox holds no further response |
| `Accounting.EveryArrivalCompletes` | benchmark/competitors/lib/udp.js:176-194 | when every message has one fragment, every arrival completes its message, repeats too |
| `Accounting.TwoSmallEchoes` | benchmark/competitors/README.md:84 | two 64-byte requests: each echo once is a good run, the first echo twice is not |
| `Accounting.LateFragmentStays` | benchmark/competitors/adapters/native-dgram.js:170-178 | a late fragment of a two-fragment message completes nothing and stays pending, which closing reports |
| `Reconnect.Client.ConnectClient` | dao/client.js:99-159 | `connect` opens a socket unless there is no path, a live socket, or a refused transport; it clears an armed retry timer |
| `Reconnect.Client.HandleConnected` | dao/client.js:180-186 | the current socket's connect restores the whole budget; a stale socket's is ignored |
| `Reconnect.Client.HandleClosed` | dao/client.js:188-221 | the current socket's close arms one retry timer, or gives up and publishes the destroy; a stale socket's is ignored |
| `Reconnect.Client.RetryFires` | dao/client.js:207-219 | the callback stops after an explicit disconnect or when retrying was stopped, and reconnects with one retry less otherwise |
| `Reconnect.Client.ProtocolFailure` | dao/client.js:281-288 | a violation is marked, its socket destroyed, the error published |
| `Reconnect.StepKeepsInv` | dao/client.js:99-221 | every event the runtime can deliver keeps the invariant: one timer at most, for the closed current socket, the newest; and a budget of exactly `maxRetries` less the reconnects spent since the last connect |
| `Reconnect.ReconnectSafety` | dao/client.js:99-221 | over every run: at most one retry timer, only while the current socket is closed; at most one live socket; automatic reconnects since the last connect within `maxRetries` |
| `Reconnect.CloseArmsIff` | dao/client.js:188-221 | at every point of every run, the current socket's close arms a timer if and only if retrying is on, the client is neither disconnected nor in violation, and fewer than `maxRetries` reconnects happened since the last connect; it gives up otherwise |
| `Reconnect.FireOpensIff` | dao/client.js:207-219 | a timer that fires opens a socket if and only if retrying is on, and is spent either way |
| `Reconnect.CallOpensIff` | dao/client.js:99-159 | a call of `connect` opens a socket if and only if the client has a path, an allowed transport and no live socket; no timer is left then, and nothing changes otherwise |
| `Reconnect.NoNewTimers` | dao/client.js:195-219 | once explicitly disconnected or in violation, no timer is armed any more; one armed before a violation reconnects at most once, and none does after a disconnect |
| `Reconnect.ViolationReconnectsIff` | dao/client.js:207-219 | a client in violation can still reconnect by itself if and only if a retry timer was armed at that moment |
| `Reconnect.ViolationWithArmedTimer` | dao/client.js:195-219 | a run from a new client to a violation with a retry timer armed |
| `Reconnect.ViolationGivesUp` | dao/client.js:281-288 | a violation of a socket that is still open ends in an error, a disconnect and a destroy, with no timer armed |
| `Reconnect.TryingCanFail` | dao/client.js:188-221 | a client whose server never answers has given up exactly when no further failure is possible |
| `Reconnect.FailuresEnd` | README.md:311 | from every state of a client free to retry, with r retries left since its last successful connect, failures end within 3 r + 2 events beside late closes of older sockets, with exactly r more sockets and one destroy, at the end and not before |
| `Reconnect.ConnectRestores` | dao/client.js:180-186 | right after any successful connect r is the whole of `maxRetries` again |
| `Reconnect.NeverSucceedingRunEnds` | dao/client.js:188-221 | with a finite limit such a run ends within 3 m + 2 events, with m + 1 sockets opened and exactly one destroy published, at the end and not before |
| `Registry.IPC.Evict` | services/IPC.js:246-249 | an evicted client is marked, its retry timer cleared, its socket destroyed |
| `Registry.IPC.Disconnect` | services/IPC.js:79-96 | `disconnect` evicts the registered client and removes its id; an unknown id changes nothing |
| `Registry.IPC.Connect` | services/IPC.js:236-257 | `connect` (and `connectNet`, lines 306-329) keeps a live client, and otherwise evicts and registers a new, connecting one |
| `Registry.ConnectChangesIff` | services/IPC.js:236-257 | `connect` changes nothing if and only if the id is empty or has a live socket; otherwise it registers one new client with the only live socket of the id, retires the others of the id, and touches no other client |
| `Registry.DisconnectEnds` | services/IPC.js:79-96 | after `disconnect` the id is not registered, all its clients are retired and none has a live socket; no other client has changed |
| `Registry.AbsentUntilConnect` | services/IPC.js:79-96 | over every run, an id that is not registered gets no live socket until `connect` is called for it |
| `Registry.ActKeepsSafe` | services/IPC.js:79-96 | every connect, disconnect and client event keeps: registered clients are wanted, all others retired for good |
| `Registry.OneSocketPerId` | services/IPC.js:236-257 | over every run, no id has two sockets that are not destroyed |
| `Registry.EvictedNeverOpens` | services/IPC.js:306-329 | a client that has left the registry never opens a socket again, and all it has are destroyed |
| `Peers.Server.PeerOf` | dao/socketServer.js:308-326 | with the `lastPeer` shortcut the same entry is found as by the plain scan, or a new one added; no two entries share an address, and the cache is empty or in the table |
| `Peers.Server.ReceiveDatagram` | dao/socketServer.js:302-338 | one datagram is framed with its own peer's buffer and dispatched to that peer; all others are untouched |
| `Peers.Server.RemoveSocket` | dao/socketServer.js:410-418 | a listed socket that is no longer readable is taken out of the table and out of the cache; any other changes nothing |
| `Peers.Server.Stop` | dao/socketServer.js:127-137 | the table and the cache are emptied together |
| `Peers.Demultiplexing` | dao/socketServer.js:302-338 | however datagrams interleave, each peer's dispatched messages and buffer are those of framing its own datagrams alone; one entry for each peer that has sent |
| `Peers.AloneIsAStream` | dao/socketServer.js:332-338 | a peer's datagrams deliver what a stream connection fed the same texts delivers if and only if no datagram after a refused one delivers anything; until a refusal they agree in everything |
| `Peers.ErrorForgets` | dao/socketServer.js:402-408 | after an error the peer stays, and its next datagram is framed as a first one |
| `MessageTimer.StreamSocket.StartMessageTimer` | dao/client.js:260-271 | a running timer is not restarted |
| `MessageTimer.StreamSocket.ProtocolFailure` | dao/client.js:281-288 | the timer is cleared, the buffer emptied, the socket destroyed |
| `MessageTimer.StreamSocket.ReceiveGuarded` | dao/client.js:240-250 | after a read that is not refused the timer runs exactly if text is retained |
| `MessageTimer.SocketFollowsFraming` | dao/client.js:232-250 | over every run, the timer apart, the socket retains what a framed connection fed the same chunks retains, and is destroyed exactly when that is closed by an error |
| `MessageTimer.TimerRuns` | dao/client.js:240-279 | over every run, the timer runs exactly while text is retained, since the read at which it last became non-empty |
| `MessageTimer.TimerMeasuresIff` | dao/client.js:260-263 | it measures the age of the retained text if and only if no read since its start completed a frame |
| `MessageTimer.TimerExpiresEarly` | dao/client.js:260-263 | two reads after which the retained text is younger than the running timer |
| `Williams.BaseWilliamsOrder` | benchmark/competitors/plan.js:1-13 | for every size the zigzag 0, 1, n-1, 2, n-2, ..., and the error exactly for unsafe or non-positive sizes |
| `Williams.WilliamsOrder` | benchmark/competitors/plan.js:22-32 | the row of a block: base order, cyclic shift, reversal in the second half for odd sizes; its two errors |
| `Williams.ForwardRow` | benchmark/competitors/plan.js:22-31 | a forward row starts with subject block mod n and steps one on, two back, three on and so forth |
| `Williams.MirroredRow` | benchmark/competitors/plan.js:31 | every other row is the forward row n blocks earlier, backwards |
| `Williams.MeetingsExact` | benchmark/competitors/plan.js:28-31 | the exact places of a cycle at which one index runs right before another |
| `Williams.OneCyclePosition` | benchmark/competitors/plan.js:15-32 | in any window of one cycle, index i stands at position p exactly cycle/n times |
| `Williams.OneCyclePairs` | benchmark/competitors/plan.js:15-32 | in any window of one cycle, each ordered pair of indices is adjacent exactly cycle/n times |
| `Williams.PositionBalance` | benchmark/competitors/plan.js:1-32 | for every size, even and odd, every starting block and number of cycles, each of n distinct subjects takes each position equally often, exactly cycle/n times a cycle |
| `Williams.CarryoverBalance` | benchmark/competitors/plan.js:1-32 | likewise each ordered pair of distinct subjects is adjacent exactly cycle/n times a cycle |
| `Grouping.Group` | benchmark/competitors/plan.js:54-59 | grouping through a Map: keys in order of first appearance, each with its items in order |
| `Grouping.GroupFacts` | benchmark/competitors/plan.js:54-59 | each group holds exactly the items of its key, and repeats none |
| `Grouping.GroupKeepsOrder` | benchmark/competitors/plan.js:54-59 | a group holds the items at all places of its key, in their order |
| `Grouping.FirstAppearance` | benchmark/competitors/plan.js:61 | of two keys the one that occurs first comes first |
| `CohortPlan.BuildCohortPlan` | benchmark/competitors/plan.js:53-87 | the plan of all cohorts, block by block and cell by cell, or an error exactly when a sample count or a block number is not acceptable, for the first cohort with one |
| `CohortPlan.PlanCell` | benchmark/competitors/plan.js:71-81 | one cell runs the cohort in the row of its shifted block, first position first |
| `CohortPlan.PlanBlock` | benchmark/competitors/plan.js:68-84 | all cells of one block |
| `CohortPlan.PlanCohort` | benchmark/competitors/plan.js:68-84 | all blocks of one cohort |
| `CohortPlan.PlanExact` | benchmark/competitors/plan.js:53-87 | the plan repeats nothing and holds exactly the trials Williams ordering of each cohort asks for |
| `CohortPlan.TupleOnce` | benchmark/competitors/validate.js:485-487 | each (cohort, block, lane, payload, workload) occurs in exactly one place of the plan |
| `CohortPlan.CellPositionBalance` | benchmark/competitors/validate.js:467-473 | with complete cycles, every (payload, workload) cell puts each lane at each position equally often, with the exact count |
| `CohortPlan.CellCarryoverBalance` | benchmark/competitors/validate.js:467-473 | and puts each ordered pair of its lanes at adjacent positions equally often |
| `PlanOrder.PlanIndex` | benchmark/competitors/plan.js:68-84 | the place in the plan of every trial: by cohort, then block, payload, workload and position; the trials of a cell stand one after the other, the p-th with orderIndex p |
| `PlanOrder.PlanIndexCovers` | benchmark/competitors/plan.js:68-84 | every index of the plan is such a place |
| `PlanOrder.NeighbourBalance` | benchmark/competitors/validate.js:467-473 | with complete cycles each ordered pair of lanes of a cell runs back to back, at adjacent places of the plan, equally often, with the exact count |
| `Merge.LoadArtifacts` | benchmark/rust/merge.js:21-31 | all artifacts are read and checked, or the merge stops |
| `Merge.RecoverableResults` | benchmark/rust/merge.js:111-129 | the files the manifest does not name, if each is one of the artifacts byte for byte, and an error otherwise |
| `Merge.CollectAdditions` | benchmark/rust/merge.js:46-56 | new batches are added whole; a batch present in part, or with an entry that differs, stops the merge |
| `Merge.PlanMerge` | benchmark/rust/merge.js:21-63 | everything that is decided before the first file is written |
| `MergePlan.CompleteIff` | benchmark/rust/merge.js:35-40 | a batch is complete if and only if each of the three platforms has exactly one result, no other platform has any, and all versions are equal |
| `MergePlan.PlanExistsIff` | benchmark/rust/merge.js:21-56 | a merge has a plan if and only if every artifact is sound and named once, the history is valid with all unnamed files among the artifacts byte for byte, every batch is complete, and is wholly new or wholly recorded with the same entries |
| `MergePlan.PlanAddsTheNew` | benchmark/rust/merge.js:46-56 | the plan adds exactly the results the manifest does not know, each once |
| `MergePlan.UpdatedAtIsLatest` | benchmark/rust/merge.js:67-70 | the new manifest is dated with the latest of the old date and the results added |
| `MergePlan.ManifestAppends` | benchmark/rust/merge.js:71 | the old entries stay in front, and the new ones follow in order of run, then platform |
| `Merge.SortKeeps` | benchmark/rust/merge.js:57-63 | sorting neither loses nor repeats an addition |
| `Merge.SortOrders` | benchmark/rust/merge.js:57-63 | the additions come out in order of run, then platform, and those that tie in the order they came in |
| `Merge.OutputDirectory.InstallAdditions` | benchmark/rust/merge.js:77-109 | the steps of `install`, building and checking the candidate copy included, and of its rollback, each of which may succeed, fail, fail after taking effect, or be the point of a crash |
| `Merge.OutputDirectory.MergeArtifacts` | benchmark/rust/merge.js:42-75 | a merge that cannot be planned, or has nothing to add, changes nothing; any other is the install |
| `CrashSafety.PlanIsPlanned` | benchmark/rust/merge.js:42-63 | what is added is new, checked and named apart from all the manifest names, and covers all unnamed files |
| `CrashSafety.TargetIsValid` | benchmark/rust/history.js:6-66 | what a merge installs passes `validateHistory` and leaves nothing unindexed |
| `CrashSafety.InstallEnds` | benchmark/rust/merge.js:84-108 | unless torn, every install ends with the old manifest and its files untouched, beside some of the additions' files, or with the target |
| `Rollback.EndsExactly` | benchmark/rust/merge.js:77-109 | every ending read off the marks: when the install completes, which manifest stands, and that the files left are the old ones and those of the additions in place that were not taken back |
| `Rollback.CleanIff` | benchmark/rust/merge.js:99-106 | a merge ends in the old manifest with exactly its files if and only if the new manifest does not stand and a rollback took back every file in place |
| `Rollback.RollbackIff` | benchmark/rust/merge.js:99-106 | an install that fails without a crash before the new manifest takes effect, or puts the old one back, ends clean if and only if the removal of every file in place took effect |
| `CrashSafety.ManifestIntactIff` | benchmark/rust/merge.js:95-106 | wherever the merge or its rollback crashes or fails, each file the manifest names exists with its recorded bytes if and only if it is not torn: manifest replaced, error reported, a file then removed |
| `CrashSafety.CanBeTorn` | benchmark/rust/merge.js:131-139 | every merge that adds anything can be torn: all goes well until removing the temporary manifest file fails |
| `CrashSafety.RerunRecoversIff` | benchmark/rust/merge.js:42-129 | after a crash or failure at any step, a rerun on the same artifacts ends in the same directory as an undisturbed merge, under the same condition and no other |
| `CrashSafety.RerunsRecover` | benchmark/rust/merge.js:42-129 | any number of merges of the same artifacts, each crashing or failing where it may, leave the manifest intact and only extended, and a directory that one undisturbed merge completes as if nothing had happened |
| `CrashSafety.GoodRunInstalls` | benchmark/rust/merge.js:84-98 | when every step succeeds the install completes with the target: its own checks never refuse it |
| `CrashSafety.EntriesRemainPrefix` | benchmark/rust/README.md:133 | existing manifest entries remain an exact prefix of every manifest a merge can leave |
| `Closure.ResolveDependency` | benchmark/competitors/dependencies.js:12-27 | finds the first hit over the directories the path is shortened to, then the root |
| `Closure.NearestHit` | benchmark/competitors/dependencies.js:14-26 | the innermost directory tried that holds the package wins, the root only when none does; nothing is found exactly when none holds it |
| `Closure.EnclosingSound` | benchmark/competitors/dependencies.js:19-23 | only enclosing directories are tried, innermost first |
| `Closure.EnclosingExactIff` | benchmark/competitors/dependencies.js:19-23 | exactly the enclosing directories are tried if and only if no two markers of the path share a slash |
| `Closure.PassedOver` | benchmark/competitors/dependencies.js:19-23 | a path from which an enclosing directory is passed over |
| `Closure.ResolveIsNearest` | benchmark/competitors/dependencies.js:12-27 | from a path without such markers, the lookup finds a hit if and only if it lies in the longest enclosing directory that holds the name, or in the root when none does |
| `Closure.EdgeIsNearest` | benchmark/competitors/dependencies.js:59-71 | along such paths, an edge of the closure leads exactly to the nearest enclosing hit of a dependency |
| `Closure.Enqueue` | benchmark/competitors/dependencies.js:59-71 | queues exactly what the names resolve to; fails exactly if a required one does not resolve |
| `Closure.QueueRoots` | benchmark/competitors/dependencies.js:36-50 | queues exactly what the roots' dependencies resolve to and counts them, repeats included, or names a real failure |
| `Closure.Visit` | benchmark/competitors/dependencies.js:57-71 | visiting a package keeps the worklist's invariant |
| `Closure.EmptyQueueIsAll` | benchmark/competitors/dependencies.js:52-72 | with an empty queue, visited is exactly what is reachable |
| `Closure.ClosureOf` | benchmark/competitors/dependencies.js:29-72 | terminates on every lockfile, cycles or not; succeeds if and only if every root exists and every dependency of a root or reachable package resolves; visited is then exactly the reachable non-root packages, and the direct edges are the roots' dependencies counted |
| `WireBytes.FrameSize` | benchmark/rust/lib.js:62-64 | a frame's bytes depend on its sequence number only through its number of digits |
| `WireBytes.FrameIsEncoded` | benchmark/rust/lib.js:62-64 | the frames counted are what `encode` sends for the two events, with the default delimiter |
| `WireBytes.DigitRange` | benchmark/rust/lib.js:67-71 | the extra digits of a range between powers of ten are its length times the digits |
| `WireBytes.ExpectedWireBytes` | benchmark/rust/lib.js:60-73 | the closed form equals the sum of all request and response frame lengths, for every count and payload |

## Left out

- CohortPlan.TupleOnce: asks for distinct lane ids, payloads and workloads, as the plan of a repeated payload or workload has every tuple of it twice; the balance lemmas likewise ask for distinct payloads and workloads.
- CohortPlan.BuildCohortPlan: lane counts are taken to be safe integers, as a JavaScript array's length is.
- Window.Windowed: the responses are a sequence given beforehand; only for the datagram client is it modelled how they come about, and time is not.
- Registry.OneSocketPerId: here and in the other theorems on the registry, clients whose configuration makes `connect` throw, and applications that call a client's `connect` themselves, are not modelled.
- MessageTimer.TimerMeasuresIff: states when the timer was started; that it fires `messageTimeout` later is the runtime's part, and a `messageTimeout` of 0, which switches it off, is left out.
- Peers.Server.ReceiveDatagram: the incomplete-message timer of a datagram peer is not modelled.
- Accounting.WindowedOverDatagrams: an arrival the reassembler refuses also fails the inbox, which can end the run earlier; among genuine echoes that takes `maxMessages` messages open at once, and is left out.
- WireBytes.ExpectedWireBytes: integers are unbounded, while the source's doubles are exact only below 2^53.
- Frames split inside a character: the socket's decoder delivers whole characters, so chunks are sequences of code points. Surrogate halves and numbers other than integers are not in the value type.
- A `null` or other non-object message under Fast makes the dispatcher throw a TypeError; delivery is modelled, dispatch is not.
- Reassembler keys are tuples; the source joins address, port, direction and sequence into one string.
- The presence and type checks of a fragment's seven fields and of the peer's address: a fragment is a typed record.
- Torn single writes and leftover `.tmp` files of the merge: writing, renaming or removing one file is one step, and building the candidate copy is one. The directory walk and symbolic links are left out, and dates are integers.
- Raw parsers, custom parsers, sync mode (`js-queue`), listeners (`event-pubsub`), logging, TLS, socket paths, permissions and backpressure: plumbing, or libraries whose sources are not part of this model.
- `sequential`, `buildPlan`, `samplePlan`, statistics, result schemas, charts and the other benchmark adapters: easy members, or long lists of equalities.
