# Verified model of tx-sender

tx-sender sends one job to many transaction providers at once. This project
models its logic in Dafny and proves what holds over every input, every run and
every interleaving:

- **Envelopes.** A builder prints an HTTP request holding two sentinels, a
  compiler turns it into a padded buffer with offsets, and a splicer rebuilds one
  frame per job by copying slices, base64 text and a fixed-width length field
  (`Envelope`, `Rendering`, `Misplaced`, with `Bytes`, `Decimal`, `Base64`); an
  independent reader gives back what went in (`Reading`).
- **Framing.** The response framer that reads the same wire form, what exactly it
  accepts, and the round trip between the two (`Framing`, `Framer`, `RoundTrip`,
  with `Unicode` and `Blanks` for the text functions of the standard library).
- **Responses.** The JSON-RPC scanner and what exactly it reads (`JsonRpc`,
  `Scanner`).
- **Workers.** One worker for all providers, or one per provider, each over an
  active and a standby connection (`Worker` holds the transitions, `Moves` what
  each sends, swaps and asks for, `Parallel` and `Sequential` the two objects).
- **The whole system.** Workers, reconnect thread, result rings and result lane
  interleaved in any order with connections failing at any time (`Ledger` is what
  is remembered of a provider's history, `System` the state machine, `Threads` the
  two service threads as objects, `Loops` the tie between worker loops and runs of
  the system, `Guarantees` the theorems, `Recovery` the way from a
  failure to its replacement, `Delivery` the way of a response to the sink,
  `EndToEnd` the way from trigger to sink).
- **io_uring backend.** Submission and completion queues beside a kernel that may
  act between any two steps (`Uring`, `UringDriver`).
- **Triggers.** The bounded rings, fan-out and the idle/wake-up protocol
  (`Triggers`, `Wakeup`).

Code that updates fields in place is modelled by classes whose methods are proved
against transition functions; the theorems are then about those functions and the
runs they make. What the environment answers (sockets, TLS, QUIC, clocks, the
kernel, the job source) is a parameter of each step, so every theorem is for all
answers allowed by the conditions in its `requires`.

Where the repository's README.md and its code disagree, the code is followed.
README.md lines 66-68 say that failover emits `TransportError::Failover` for the
job in flight; `do_failover` (src/transport/sequential.rs:169-175) drops that job
silently, and `Guarantees.SendsAreConserved` counts it as lost.

Three properties one might expect are false, and are stated with failing inputs
and the exact condition under which they hold:

- Splicing equals textual substitution exactly when the body sentinel stands in
  the body template or the encoding fills the slot
  (`Rendering.SpliceIsSubstitution`); `Misplaced.ExampleIsMispatched` gives a
  builder with the sentinel in its path.
- A body is attributed to the job it answers exactly when the connection owes one
  answer only (`Guarantees.AttributionIsExact`);
  `Guarantees.PipeliningMisattributes` gives a run in which job 1's answer is
  pushed under job 2.
- An acceptance read off the first 1024 bytes is the whole body's exactly when the
  whole body is UTF-8 (`JsonRpc.CappedAcceptance`); `JsonRpc.CutHidesInvalidText`
  gives bodies that differ.

Inductive proofs are explicit: no lemma relies on the automatic induction of the
verifier. `dafny verify dfyconfig.toml` checks the whole project.

## Model

| member | source | states |
|---|---|---|
| Decimal.DecLength | src/protocol/http/envelope.rs:139-148 | a number has at most k decimal digits if and only if it is below 10^k |
| Decimal.ParseOfDec | src/protocol/http/engine.rs:31 | parsing the numeral of any 64-bit number as a length gives the number back |
| Decimal.ParseOfDecI64 | src/provider/response.rs:31 | parsing the numeral of any signed 64-bit number gives it back, sign and extremes included |
| Decimal.ParseUsizeIs | src/protocol/http/engine.rs:31 | exactly the numerals below 2^64 parse as a length, with any number of leading zeros and with or without a plus sign |
| Decimal.ParseI64Is | src/provider/response.rs:31 | exactly the numerals in the signed 64-bit range parse, with any number of leading zeros and with or without a sign |
| Base64.RoundTrip | src/protocol/http/envelope.rs:123-126 | standard base64 with padding: decoding an encoding gives every byte string back |
| Base64.AlphabetIs | src/protocol/http/envelope.rs:123-126 | every symbol is the one in table 1 of RFC 4648 |
| Base64.VectorsAre | src/protocol/http/envelope.rs:123-126 | the one-, two- and three-byte vectors of section 10 of RFC 4648 |
| Unicode.Utf8Is | src/protocol/http/engine.rs:21 | a byte string is accepted as text if and only if it spells out scalar values as section 3 of RFC 3629 says: no surrogate, no overlong form, no stray byte |
| Blanks.BlankIsWhiteSpace | src/protocol/http/engine.rs:27 | the characters trimmed are exactly the White_Space characters of Unicode in UTF-8 |
| Blanks.FrontIsBlank | src/protocol/http/engine.rs:27 | the test at the front of a text finds white space if and only if the text starts with such a character |
| Blanks.BackIsBlank | src/protocol/http/engine.rs:27 | the test at the end of a text finds white space if and only if the text ends with such a character |
| Blanks.TrimIs | src/protocol/http/engine.rs:27 | trimming yields `r` if and only if the text is white space, `r` and white space, and `r` neither starts nor ends with any |
| Blanks.TrimStartIs | src/provider/response.rs:15 | trimming the start yields `r` if and only if the text is white space and `r`, and `r` starts with none |
| Envelope.Build | src/protocol/http/spec_builder.rs:60-96 | the appended wire text is the request line, fixed, auth and extra header lines, the length line and the body template, for every builder; `Reading.WireReadsBack` says what a reader finds in it |
| Envelope.FindUnique | src/protocol/http/envelope.rs:22-35 | returns an index exactly when the needle occurs once, overlapping occurrences counted, and then that index |
| Envelope.Compile | src/protocol/http/envelope.rs:54-107 | succeeds exactly on compilable specs, with the right error otherwise, whenever no conversion to 32 bits overflows; the offsets mean the unique sentinel positions in padded coordinates |
| Envelope.Digits | src/protocol/http/envelope.rs:136-148 | the backward digit loop over 20 bytes of scratch never underflows and leaves the decimal numeral of any 64-bit value |
| Envelope.EnvelopeTemplate.Splice | src/protocol/http/envelope.rs:109-162 | whatever earlier calls left in the output buffer, the result is the splice of this transaction alone |
| Envelope.EnvelopeTemplate.PatchLength | src/protocol/http/envelope.rs:155-158 | exactly the length field changes: digits first, blanks after |
| Rendering.BuilderPlaces | src/protocol/http/spec_builder.rs:81-95 | in builder text the unique length sentinel is the builder's own, a blank line follows it, and the body sentinel lies clear of both |
| Rendering.SentinelsApart | src/protocol/http/envelope.rs:62-66 | the two sentinels can never overlap |
| Rendering.BuilderCompiled | src/protocol/http/envelope.rs:54-107 | what the compiled buffer and offsets are in terms of the builder's wire text, including the shift of the length field past the slot |
| Rendering.BuilderCompiles | src/protocol/http/envelope.rs:54-107 | a builder spec compiles if and only if the slot holds at least 8 bytes and each sentinel occurs exactly once |
| Rendering.RenderStatesItsLength | src/protocol/http/envelope.rs:131-160 | the reference frame is the substituted wire text whose length field states the number of bytes after its own first blank line |
| Rendering.SpliceRenders | src/protocol/http/envelope.rs:109-162 | with the length field before the slot, or the slot full, splicing yields the reference frame |
| Rendering.MisplacedPatch | src/protocol/http/envelope.rs:81-85 | with the body sentinel first and the slot not full, splicing never yields the reference frame |
| Rendering.SpliceIsSubstitution | src/protocol/http/envelope.rs:109-162 | for every builder that compiles and every transaction: too long is refused, and otherwise splice equals substitution if and only if the sentinel is in the body template or the encoding fills the slot |
| Rendering.SpliceFailsExactly | src/protocol/http/envelope.rs:113-116 | with the sentinel in the body template, splicing fails if and only if ceil(len/3)*4 exceeds the slot |
| Rendering.PresetIsLeast | src/provider/registry.rs:9 | a slot admits every transaction of at most 1232 bytes if and only if it has at least 1644 bytes |
| Misplaced.BodyFirstIsMispatched | src/protocol/http/envelope.rs:81-85 | whenever the body sentinel precedes the length field, every transaction that does not fill the slot is mispatched |
| Misplaced.SentinelInPath | src/protocol/http/spec_builder.rs:60-96 | a builder whose path ends in the body sentinel, with no other `<`, compiles and then mispatches every transaction short of the slot, at the positions of its own sentinels |
| Misplaced.ExampleIsMispatched | src/protocol/http/spec_builder.rs:60-96 | a concrete builder that compiles and whose splice of the empty transaction is not the substitution of its sentinels |
| Framing.ResponseIsComplete | src/protocol/http/engine.rs:19-37 | a response that states its length yields exactly its body |
| Framing.PrefixIsIncomplete | src/protocol/http/engine.rs:19-37 | no proper prefix of a response is taken for one |
| Framing.HttpEngine.Ingest | src/protocol/http/engine.rs:84-114 | the accumulated plaintext, the outcome and what is kept, for failing reads of ciphertext, packet errors, read errors and clean reads |
| Framing.KeptStaysShort | src/protocol/http/engine.rs:84-114 | until the first error the kept bytes never hold a whole response and never exceed 65536 |
| Framing.ChunkingIndependence | src/protocol/http/engine.rs:84-114 | however responses are cut into chunks that do not cross a response end, the bodies come out in order, each at the chunk that completes it |
| Framer.FieldValueIs | src/protocol/http/engine.rs:22-30 | the value found is the rest of the first line that starts with `content-length:` in any mixture of small and capital letters, without a carriage return in front of its line feed; none is found if and only if no line starts so |
| Framer.ContentLengthIs | src/protocol/http/engine.rs:21-31 | a head states the length n if and only if it is UTF-8 and that value, trimmed, is a numeral of n below 2^64 |
| Framer.FramedIs | src/protocol/http/engine.rs:19-37 | a body is returned if and only if the bytes start with a head up to its first empty line that states the length of the body, and the body |
| Framer.IngestIs | src/protocol/http/engine.rs:105-114 | one call: a body if and only if one is framed, and then nothing is kept, whatever followed it; otherwise everything is kept, and it is an error if and only if that is more than 65536 bytes |
| RoundTrip.FieldParses | src/protocol/http/engine.rs:24-31 | trimming and parsing a padded length field gives the length |
| RoundTrip.SkipsLines | src/protocol/http/engine.rs:23-30 | the length scan passes over any number of other header lines |
| RoundTrip.BlankAfterLines | src/protocol/http/engine.rs:20 | the first blank line of a message with clean header lines is the one after the head |
| RoundTrip.MessageIsResponse | src/protocol/http/engine.rs:19-37 | a message with clean headers and a truthful length is one response with that body |
| RoundTrip.SpliceIsMessage | src/protocol/http/envelope.rs:109-162 | a spliced frame is its header lines, a truthful length line and the template halves around the encoding |
| RoundTrip.FrameRoundTrip | src/protocol/http/envelope.rs:109-162 | print/parse: the framer returns the whole body of a spliced frame, rejects every proper prefix, and the slot decodes to the transaction |
| Reading.TrimsSlashes | src/protocol/http/spec_builder.rs:66-68 | the path kept is the prefix of the base path that does not end in `/`, and only `/` follows it there |
| Reading.WireReadsBack | src/protocol/http/spec_builder.rs:60-96 | for every builder whose fields hold no separator of their own, cutting the text at the first line ends, blanks, `: `, `?` and `=` gives back the method, the base path with the credentials where they were placed, the version, and Host, Content-Type, auth header, extra headers and Content-Length in order, and the body template |
| Reading.FrameReadsBack | src/protocol/http/envelope.rs:109-162 | the same reading of the frame spliced for any transaction that fits: the same fields, the length of the body in decimal, and the template halves around the encoding |
| JsonRpc.FindInPrefix | src/provider/response.rs:12 | a search in a prefix finds what the whole search finds, exactly when that lies in the prefix |
| JsonRpc.TruncationKeepsSignature | src/provider/response.rs:35-38 | a body cut at any length is accepted exactly when the whole one is, the cut is valid UTF-8 and keeps the closing quote; then with the same signature |
| JsonRpc.Capped | src/transport/sequential.rs:188-189 | exactly the first 1024 bytes are kept, or the whole body if it is shorter |
| JsonRpc.CappedAcceptance | src/transport/sequential.rs:188-189 | an acceptance read off the kept bytes is what the whole body says if and only if the whole body is UTF-8 |
| JsonRpc.CutHidesInvalidText | src/provider/response.rs:9-19 | bodies whose kept bytes are accepted while the whole is not: an invalid byte after byte 1024 |
| JsonRpc.ResultRoundTrip | src/provider/response.rs:35-38 | the canonical result body of every quote-free signature is accepted with it |
| JsonRpc.ErrorIsNoResult | src/provider/response.rs:9-19 | no canonical error body is read as a result, not even with the message `result` |
| JsonRpc.ErrorRoundTrip | src/provider/response.rs:39-43 | the canonical error body of every code and quote-free message is rejected with exactly both |
| Scanner.StringIs | src/provider/response.rs:9-19 | a string is read for a key if and only if the body is UTF-8 and behind the first quoted key, the first colon after it and any white space stands that string, up to the next quote |
| Scanner.NumberIs | src/provider/response.rs:21-32 | a number is read for a key if and only if the body is UTF-8 and the longest run of digits and minus signs in that place is a numeral of it in range |
| Scanner.AcceptedIs | src/provider/response.rs:36-38 | accepted with a signature if and only if the body holds it as its `result` |
| Scanner.RejectedIs | src/provider/response.rs:39-43 | rejected if and only if there is no result string and the word `"error"` occurs, UTF-8 or not; with the code and message the body holds, and with 0 and the empty message where it holds none |
| Scanner.NoResponseIs | src/provider/response.rs:44 | no response if and only if there is neither a result string nor the word `"error"` |
| Worker.ScratchDoesNotLeak | src/transport/parallel.rs:135-149 | the bytes sent from the reused scratch buffer are independent of its earlier contents if and only if the source reports no more than it wrote |
| Worker.TurnIsSteps | src/transport/parallel.rs:134-168 | a turn of the loop is a sequence of the state machine's steps, with the same effects |
| Moves.SendsExactly | src/transport/parallel.rs:170-201 | a popped job goes out at most once, with its own job, time stamp and bytes: on the active connection if and only if that accepts it, on the former standby if and only if the active one failed and that accepts the retry; nothing else is ever sent |
| Moves.FailsOverExactly | src/transport/parallel.rs:203-248 | the pair is swapped, what was in flight dropped and exactly one rebuild of this provider and kind asked for, if and only if the answer shows the active connection gone: one of four send or receive errors, or a dead QUIC connection; otherwise both connections stay and nothing is asked |
| Moves.ReportsExactly | src/transport/parallel.rs:212-248 | a step builds a response if and only if a body arrives while a job is in flight, or the latest send of a live QUIC connection is more than 500 ms old; it carries that job, its time stamp, the provider, the settling time and the first 1024 bytes, and then nothing is in flight for it |
| Moves.DeliversExactly | src/transport/parallel.rs:250-256 | a delivery installs the connection it carries as a healthy standby and does nothing else |
| Moves.TurnTakesDelivery | src/transport/parallel.rs:151-166 | a turn takes a rebuilt connection on every 1024th tick and when idle, and otherwise leaves the standby |
| Loops.RunFollowsLoop | src/transport/parallel.rs:134-168 | over every run of the system in which the moves of worker i are those of its loop, the worker's state, the frames sent (connection, job, time stamp and bytes) and the responses built are the loop's, whatever the other threads do |
| Loops.AnyInterleavingRuns | src/transport/sequential.rs:84-125 | steps of workers in any order are a run of the system if and only if each worker's answers are allowed and its deliveries come from its channel |
| Loops.ParallelLoopRuns | src/transport/parallel.rs:134-168 | the loop of parallel worker i with allowed answers is a run of the system that ends with that worker, its sends and its responses where the loop leaves them |
| Loops.SequentialLoopRuns | src/transport/sequential.rs:84-125 | the loop of the sequential worker, in its own order over all providers and with allowed answers, is a run of the system, and every provider ends where that loop leaves it |
| Parallel.WriteFill | src/transport/parallel.rs:143 | filling overwrites a prefix of the scratch array and leaves the rest |
| Parallel.ParWorker.SendTo | src/transport/parallel.rs:170-201 | new state and effects of a send, with failover and one retry on a failed connection; which frames go out and when the pair is swapped is `Moves.SendsExactly` and `Moves.FailsOverExactly` |
| Parallel.ParWorker.DoFailover | src/transport/parallel.rs:203-210 | the job in flight is dropped, the slots are swapped, a rebuild of this provider is asked for |
| Parallel.ParWorker.Reap | src/transport/parallel.rs:212-248 | new state and effects of a reap, for bodies, failures, dead QUIC connections and elapsed windows; when the pair is swapped is `Moves.FailsOverExactly` |
| Parallel.ParWorker.CheckStandbyDelivery | src/transport/parallel.rs:250-256 | a delivery replaces the standby and nothing else |
| Parallel.ParWorker.Run | src/transport/parallel.rs:134-168 | any number of turns make exactly the moves of the transition function |
| Sequential.SequentialWorker.SendTo | src/transport/sequential.rs:127-167 | a send changes only its provider, as that provider's own worker would, which `Moves.SendsExactly` and `Moves.FailsOverExactly` pin down |
| Sequential.SequentialWorker.DoFailover | src/transport/sequential.rs:169-175 | a failover changes only its provider, as that provider's own worker would |
| Sequential.SequentialWorker.Reap | src/transport/sequential.rs:177-213 | a reap changes only its provider, as that provider's own worker would, which `Moves.FailsOverExactly` pins down |
| Sequential.SequentialWorker.CheckStandbyDeliveries | src/transport/sequential.rs:215-223 | delivery by the index in the response reaches the provider of the channel, for every provider |
| Sequential.SequentialWorker.FanOut | src/transport/sequential.rs:88-103 | one pop, one time stamp and one scratch buffer give every provider the send its own worker would make |
| Sequential.SequentialWorker.RunTurn | src/transport/sequential.rs:84-125 | a turn of the sequential loop is, for every provider, a turn of its own worker |
| Sequential.SequentialWorker.Run | src/transport/sequential.rs:84-125 | simulation: every run over n providers, projected to provider j, is a run of parallel worker j on the same jobs and answers, state and effects |
| Ledger.ActsKeepBook | src/transport/parallel.rs:170-256 | every step keeps what is known of a provider's history: slots, sends, pushes, open answers and counts; HTTP connections may accept or answer anything at any time |
| System.PairChanges | src/conn/mod.rs:151-159 | apart from deliveries the pair of connections only ever swaps; a delivery leaves the active one |
| System.InitOk | src/transport/connect.rs:68-85 | the state after connecting every provider twice satisfies the invariant |
| System.ReconnectKeeps | src/conn/reconnect.rs:70-100 | rebuilding keeps the invariant: the response channel of a provider carries fresh connections of that provider |
| System.LaneKeeps | src/result_lane.rs:73-94 | popping and parsing one response keeps the invariant |
| System.RunKeeps | src/transport/builder.rs:144-313 | every run of all threads keeps the invariant, whatever the HTTP connections answer |
| Threads.ResultLane.Pass | src/result_lane.rs:73-83 | one pass empties every ring, hands the sink every response ring by ring in order through that ring's codec, reports whether it found any, and is a run of lane moves |
| Threads.ReconnectThread.Request | src/conn/reconnect.rs:48 | a request is taken exactly when fewer than 64 wait |
| Threads.ReconnectThread.Turn | src/conn/reconnect.rs:70-100 | one turn is the state machine's rebuild move: the oldest request leaves, the slot of the provider it names gets a new connection of that provider if and only if the build succeeded, the slot was empty and the request is not for libtpa, and every other slot stays |
| Recovery.FailureIsRequested | src/conn/reconnect.rs:48 | over every step: a failure appends exactly one request, last in the queue, if and only if fewer than 64 wait; no other step asks |
| Recovery.TurnFillsSlot | src/conn/reconnect.rs:70-100 | in every reachable state a rebuild puts a new connection into an empty slot of the provider asked for and leaves a full one |
| Recovery.QueueIsServedInOrder | src/conn/reconnect.rs:70-84 | over every run requests leave from the front only, one a turn, in order |
| Recovery.SlotIsKept | src/conn/reconnect.rs:85-100 | over every run a delivered connection stays in its channel until its worker looks |
| Recovery.FailureIsRepaired | src/conn/reconnect.rs:70-100 | over every run: a failure that finds room among the 64 requests is served after those ahead of it, and if that build succeeds into an empty channel, the worker's next look makes exactly the new connection its standby, whatever all threads do between |
| Guarantees.OutcomesFollowSends | src/result_lane.rs:42-57 | over every run the outcomes of a provider name distinct successful sends to it, in strictly increasing pop order, with job, time stamp, number, the time the response settled and that provider's codec |
| Guarantees.SinkSeparatesProviders | src/transport/builder.rs:155-165 | with at most 65536 providers, what the sink sees under a number is exactly what that provider's ring yielded, in order |
| Delivery.RingTakesExactly | src/result_lane.rs:11-83 | over every step of every thread: a worker's response enters its result ring, last, if and only if fewer than 256 wait; the lane takes the oldest through that provider's codec; nothing else touches ring or sink |
| Delivery.NothingIsDropped | src/result_lane.rs:73-94 | over every run in which the ring has room whenever its worker moves, every response built is received or still in the ring, each once and in the order built |
| Guarantees.SendsAreConserved | src/transport/parallel.rs:170-248 | in every reachable state jobs sent = pushed + dropped on a full ring + superseded + lost to failover + in flight |
| Guarantees.SlotsAreSafe | src/conn/mod.rs:143-160 | in every reachable state both slots hold distinct connections of this provider and protocol, the standby is unused or was swapped out failed, and under libtpa the pair never changes |
| Guarantees.ChannelsAreRouted | src/conn/reconnect.rs:85-92 | what waits in response channel i was built for provider i and says so |
| Guarantees.AttributionIsExact | src/transport/sequential.rs:180-191 | in every reachable state a pushed body names the latest send; a connection that has not failed then owes an answer, and the send owed longest is the one named if and only if one answer is owed |
| Guarantees.AnswersMatchJobs | src/transport/sequential.rs:127-213 | in every run in which provider i's own HTTP connections behave and its worker pops no job while it has one in flight, whatever all other workers and connections do, each body pushed for provider i answers the send it names, across failovers and rebuilds |
| Guarantees.AcceptanceIsGenuine | src/result_lane.rs:42-57 | in such a run every outcome of an HTTP provider is its codec's verdict on the first 1024 bytes of the body that answered the very send it names; with the JSON-RPC codec an acceptance is the whole body's if and only if that body is UTF-8 |
| Guarantees.PipeliningMisattributes | src/transport/sequential.rs:142 | a concrete run with well-behaved connections: after two sends the next body, which answers job 1, is pushed under job 2 |
| Guarantees.NoResponseIsEarned | src/conn/mod.rs:91-108 | over every run a missing response is reported exactly when the live connection's latest send is more than 500 ms old; never twice, never after a later send, never for a connection swapped out |
| EndToEnd.SentBytesAreFilled | src/transport/parallel.rs:138-149 | over every run in which worker i makes the moves of its loop, each frame it sent carries the job, the time stamp and exactly the bytes the source filled for that pop |
| EndToEnd.OutcomesFollowTriggers | src/transport/builder.rs:60-83 | from `trigger` to the sink, over every interleaving: if worker i sends the jobs it popped from its ring, what the sink receives under number i names triggered jobs, each at most once and in trigger order |
| Uring.UdCollides | src/backend/io_uring.rs:51-53 | keys collide if and only if the operations agree and the indices agree modulo 2^63 |
| Uring.BuffersOutliveEntries | src/backend/io_uring.rs:168-188 | in every valid state each send still pending, submitted or in the kernel points to a buffer still queued on its connection |
| Uring.KernelKeeps | src/backend/io_uring.rs:75-139 | whatever the kernel takes or completes, in order per connection for sends, keeps the invariant |
| Uring.ReapOneKeeps | src/backend/io_uring.rs:99-110 | moving a completion into the maps keeps the invariant and never overwrites a finished receive |
| Uring.ReapAllCounts | src/backend/io_uring.rs:99-110 | no send completion is lost: the counters grow by exactly the completions found |
| Uring.ReclaimKeeps | src/backend/io_uring.rs:132-139 | as many buffers leave the front of the queue as sends completed, that many are there, and every buffer still pointed to is among those that stay, in order |
| Uring.DropKeeps | src/backend/io_uring.rs:112-130 | an entry lost to a failed submit while draining leaves only an orphan buffer |
| Uring.StageKeeps | src/backend/io_uring.rs:173-181 | a staged buffer whose push failed keeps the invariant as an orphan |
| Uring.ConsumeKeeps | src/backend/io_uring.rs:205-216 | a finished receive's buffer holds exactly the next bytes of the stream |
| UringDriver.IoUring.Reap | src/backend/io_uring.rs:99-110 | the loop drains the completion queue it found |
| UringDriver.IoUring.PushSqe | src/backend/io_uring.rs:75-90 | either the entry is last in the submission queue, after all earlier ones, or the submit failed and nothing was pushed |
| UringDriver.IoUring.DrainPending | src/backend/io_uring.rs:112-130 | on success everything pending follows what was pushed before, in order; on failure the invariant still holds |
| UringDriver.IoUring.ReclaimSends | src/backend/io_uring.rs:132-139 | pops exactly as many buffers as sends completed and never an empty queue; no buffer still pointed to is lost |
| UringDriver.IoUring.Connect | src/backend/io_uring.rs:152-166 | a fresh index with empty queues joins |
| UringDriver.IoUring.Submit | src/backend/io_uring.rs:168-188 | datagrams are refused untouched; a stream send is staged, and an accepted one follows all earlier ones in either mode, in stream mode right into the kernel if submits take the whole queue |
| UringDriver.IoUring.PollRecv | src/backend/io_uring.rs:190-219 | nothing stays pending; exactly one receive of this connection is then outstanding in the ring the reap found, joined in this call if and only if there was none, before what was pending; every completed send is reclaimed and everything arrived is consumed, whatever the kernel does until the call returns; the data returned are the next bytes of the connection's stream, as many as were consumed or fit; an error carries the errno of this connection's receive |
| UringDriver.IoUring.Drive | src/backend/io_uring.rs:221-234 | after an error-free drive nothing is pending, the sends before the kernel are exactly the sends accepted, in order, and the kernel has them all if submits take the whole queue |
| UringDriver.ModesAgree | src/backend/io_uring.rs:168-188 | over the same error-free calls, wherever each backend stages its copies, batch mode's pushed sends followed by its pending ones equal stream mode's pushed sends, so each connection is given the same bytes |
| Triggers.Spsc.TryPush | src/rt/spsc.rs:55-64 | a job is appended and the counter grows by one exactly when there is room; otherwise nothing changes |
| Triggers.Spsc.TryPop | src/rt/spsc.rs:74-76 | the oldest job leaves, or the ring is empty |
| Triggers.Sender.Trigger | src/transport/builder.rs:60-83 | Ok exactly when every ring had room; the job is in exactly the rings that had |
| Triggers.FanOut | src/transport/builder.rs:60-83 | over every interleaving of pushes and pops each ring holds the jobs it took and did not give out, in call order, and a call returned Ok exactly when every ring took it |
| Triggers.WorkersSeeTheSameJobs | src/transport/builder.rs:68-82 | while no call was refused, every worker sees every job in the same order |
| Wakeup.NoLostWakeup | src/rt/wait.rs:123-137 | in every interleaving a worker waiting over a non-empty ring was alerted, or its producer is between push and notify, the ring holds that one job, and the notify alerts it |
| Wakeup.PopsFollowPushes | src/rt/spsc.rs:55-76 | the worker pops exactly what was pushed, in order, and every push but one under way was announced |
| Wakeup.RecheckIsNeeded | src/transport/parallel.rs:158-163 | the interleaving in which only the second look keeps the worker from sleeping over a job |

## Left out

- TLS, QUIC and certificate state machines: a connection is a step relation that answers Ok, an error or nothing.
- Socket code of the raw and libtpa backends: only its outcomes matter to the workers.
- Envelope.Compile: assumes that the conversions to 32 bits and the shift of the length field do not overflow, where the source panics or wraps; an out-of-range slice in `splice` is the error `SliceOutOfRange` where the source panics, and the subtraction for the length wraps as in a release build.
- Rendering.SpliceIsSubstitution: wire text plus slot below 10^12 bytes, so that every length fits the 12-digit field.
- Framing.ChunkingIndependence: chunks do not cross a response end, because `ingest` discards what follows one; the sum of header end and length is unbounded where the source's could overflow a word.
- Reading.WireReadsBack: the method, path and credentials in the path hold no blank, no field holds a carriage return, no header name holds `: `, and with a URL parameter the base path holds no `?` and the key no `=`; fields with separators of their own are read differently by any such reader.
- Reading.FrameReadsBack: the same, and what `RoundTrip.FrameRoundTrip` asks of line feeds and lengths.
- RoundTrip.FrameRoundTrip: the request line and headers hold no line feed and no second Content-Length, and are valid UTF-8, as text supplied through the builder should be.
- Guarantees.AnswersMatchJobs: assumes of the HTTP connections of provider i that each answers in order and once, that a failed one never answers or accepts again, and that other send errors leave no request outstanding; `Guarantees.AcceptanceIsGenuine` assumes the same.
- Guarantees.NoResponseIsEarned: assumes, like all results about runs of the system, that a dead QUIC connection stays dead; nothing is assumed of HTTP connections.
- Uring.KernelKeeps: sends of one connection complete whole and in submission order; short sends, send errors, end of stream and freeing buffers of a dropped connection are not modelled.
- UringDriver.IoUring.PushSqe: a successful submit of a non-empty queue takes at least one entry, and in SQPOLL mode the busy-wait on a full queue ends when the polling thread has taken an entry; a kernel that makes no progress is not modelled.
- UringDriver.IoUring.Connect: fewer than 2^63 connections, the range in which keys are distinct; a connection is a value at its index in the backend, not an object of its own.
- Parallel.ParWorker.Run: driving the connections is a stuttering step, the two connections are values inside the worker, and the downcast of a rebuilt connection always succeeds.
- Sequential.SequentialWorker.Run: the job source never reports more bytes than it wrote (`Worker.ScratchDoesNotLeak` says what happens otherwise), and response channels are routed as `Guarantees.ChannelsAreRouted` proves.
- Threads.ResultLane.Pass: no response is pushed during the pass; in module System pushes and single pops interleave freely.
- Wakeup.NoLostWakeup: sequentially consistent memory and the monitor backends only; waking on stop, on other result rings and in the spin fallback rests on the timeout.
- Triggers.FanOut: one thread calls `trigger` at a time, as the rings demand.
- Internals of the lock-free rings, channels and sequence locks: bounded FIFOs, one-slot channels and atomic steps.
- Draining at shutdown: the lane stops without emptying its rings.
- Emission of `TransportError::Failover`: documented but not done by the code.
- Builder setters, the default body, registry presets other than the slot size, health, profiling, thread pinning, sample programs, benches and test servers: configuration or input and output without a hard property.
