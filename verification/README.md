# A verified model of the HTTP/1.1 server

This project models the core of a multi-threaded HTTP/1.1 server that is
written in C++ on top of edge-triggered `epoll`, and proves what its parts are
for: that requests do not depend on how TCP cuts them up, that the encoder and
the parser undo each other, that the rate limiter keeps exact windows, that
the task queue loses nothing, and that the accept protocol neither strands a
client nor deadlocks. Everything is Dafny 4.11; `dafny verify dfyconfig.toml`
checks all of it.

## How it is built

Code that changes objects in place is modelled by classes and loops, and each
method is proved against a function over values. The theorems are about those
functions. The concurrent parts are state machines: one step is one access to
shared state, and the theorems hold for every interleaving of any number of
steps and threads.

| files | what they model |
|---|---|
| `Bytes`, `Numerals`, `Counting` | byte strings, numbers as text (`strtoul`, `std::stoull`, `std::hex`), counting threads |
| `HttpHeaders`, `HttpRequest`, `Framer`, `HttpRequestParser` | the header map, the framer and the incremental parser, as objects and as the functions `LineFrame`, `Step` and `Run` |
| `ParserLaws`, `ChunkSizes`, `MessageGrammar` | what the parser keeps, how it resumes, and the grammar that it recognises exactly |
| `HttpResponse`, `HttpResponseEncoder`, `EncoderRoundTrip` | the encoder's loops, and when the parser reads its messages back |
| `Session`, `ShortLines` | the parse loop of read tasks under any division of the stream, with and without an end; a condition on messages under which divisions do not matter |
| `Connection`, `Conversation`, `ConversationUpkeep` | the tasks of one connection, as functions over values and as the object; its whole life under epoll; that neither bytes nor requests are left lying |
| `ReplyRoundTrip` | what a client reads of the bytes that it gets |
| `RateLimiter`, `RateLimiterLaws`, `SweepTransparency` | the sharded token buckets, the sliding-window law, eviction |
| `TaskQueue`, `QueueProtocol` | the ring buffer, and queue, condition variables and pool as a protocol |
| `PerIpConnectionLimiter`, `EventLoop` | the counts per address, and accept, removal, tasks and sweeps as interleaved steps |
| `EventLoopOwnership`, `EventLoopAccounting`, `EventLoopBacklog`, `EventLoopCapReached`, `EventLoopDuties` | descriptors, slots and mutexes; the two caps; no stranded client; the cap's slack is real; every event, task and sweep does what it is for |

A byte is a Dafny `char`, so that byte vectors and strings are one type and no
theorem depends on the size of the alphabet. `size_t` and `unsigned long` have
64 bits: the body length that is still needed, the parsed numbers and the
connection counter are reduced modulo 2^64 where the program can wrap them.
Time is a real number.

## What the code turns out not to do

Where the code departs from its comments or its documentation, the model
follows the code, and the exact condition is proved.

- Fragmentation. As long as it has not ended, a stream is answered in the same
  way however it is cut into pieces if and only if it asks for no line of 8192
  to 65536 bytes before its first refusal. The framer accepts such a line when
  it arrives at once, but refuses a buffer of more than 8192 bytes without CR LF
  (`Session.SplitIndependentExactly`).
- The end of a stream. A read task that finds the end does not parse, so requests
  that come in the same drain as the end, or that the cut after 51 requests had
  left in the buffer, are lost. Which replies are lost, and when there are any, is
  `Session.EndLosesExactly`; only streams that get no reply at all are answered
  in the same way for every division (`Session.EndedAlikeExactly`).
- Framing headers. `HttpHeaders::del` looks up the lowered key and erases the
  key as it is written, so the two deletions of the encoder do nothing, and a
  response carries both framing headers exactly when its handler set the other
  one (`EncoderRoundTrip.ConflictExactly`). The empty body leaves `body_type` as
  it is. When a message is read back is `EncoderRoundTrip.ReadsBack`.
- Chunk sizes. Against section 7.1 of RFC 9112 the code also reads a numeral with
  a `0x` before it or a NUL and anything after it, and a numeral followed by a `;`
  that begins no legal extension; it refuses white space before a legal extension;
  and it departs in no other way (`ChunkSizes.AgreesWithRfcExactly`, with a line
  of each kind in `ChunkSizes.DepartureWitnesses`).
- Closing. A reply follows a closing one if and only if a read task runs after the
  closing reply was given and completes, refuses or limits a request
  (`Conversation.LateRepliesExactly`). Nothing in the code prevents that: while a
  closing response waits to be written, the write task arms input again, whatever
  the router answers (`Conversation.AnswersAfterClose`, a run from the start). The
  end-to-end claim is therefore about the replies up to the first closing one
  (`Conversation.AnsweredInOrder`).
- Lingering. Once a closing response has been sent completely, its connection is
  removed, unless it was a read task that sent the rest and closed nothing itself
  (`ConversationUpkeep.LingersExactly`): then it stays open and waits for input
  (`ConversationUpkeep.LingersOpen`, a run from the start).
- Stopping. Whenever bytes are queued and no task is to come, epoll is armed for
  output, unless a report has started no task since the last one
  (`ConversationUpkeep.ArmedExactly`). A stopping server ignores a report of input,
  which has disarmed output as well, so queued bytes can be left
  (`ConversationUpkeep.StoppingStrands`).
- The cap. With `k` threads the map can hold 10000 + k - 1 connections, and for
  every `k` up to 10000 there is a run in which it does (`EventLoopAccounting.CapWithSlack`,
  `EventLoopCapReached.CapIsReached`).
- Recovery. A client waits in front of a server with room, and nobody is coming,
  only if the last thread to leave the accept loop left by a fatal `accept` error,
  with no client and no entry since (`EventLoopBacklog.NobodyStranded`); that does
  happen (`EventLoopBacklog.FatalErrorStrands`), and exactly a new client, a
  removal or an entry ends it (`EventLoopBacklog.RescuedExactly`).
- Empty tasks. A worker exits when it takes an empty task. A job can be left in the
  queue after all workers have exited if and only if the number of empty tasks is
  at least the number of workers and less than that plus 1024
  (`QueueProtocol.StrandsExactly`, for every number of workers).

## Model

| member | source | states |
|---|---|---|
| Numerals.Show | src/Http/HttpResponseEncoder.cpp:67-71 | the numeral of a size: digits of the base that denote the number, without a leading zero unless it is 0 |
| Numerals.StoullReads | src/Http/HttpHeaders.cpp:44-60 | such a length is read as the value of its digits, negated modulo 2^64 after a minus sign, and as 0 if it does not fit |
| Numerals.StoullIsDecimal | src/Http/HttpHeaders.cpp:44-60 | a Content-Length that is not read as 0 is white space, a sign, digits and something else |
| HttpHeaders.HttpHeaders.Set | src/Http/HttpHeaders.cpp:13-16 | the value is found under the key in any capitalisation, every other key keeps its value, and stored keys stay lowered |
| HttpHeaders.HttpHeaders.Del | src/Http/HttpHeaders.cpp:28-37 | the key is erased as it is written, so one with a capital letter is not erased at all |
| HttpHeaders.DeletedExactly | src/Http/HttpHeaders.cpp:28-37 | a header that is there is gone after `del` if and only if the key was given in lower case; otherwise the map is unchanged |
| HttpRequest.KeepsAliveExactly | src/Http/HttpRequest.cpp:12-26 | a client keeps the connection open if and only if its `Connection` header does not mention `close`, in any capitalisation, and mentions `keep-alive` or the version is HTTP/1.1 |
| Framer.ExtractLine | src/protocol/Framer.cpp:5-39 | the scan hands out the bytes before the first CR LF if that is within 65536 bytes and leaves what follows it; otherwise the buffer stays and is refused when it is longer than 8192 bytes |
| Framer.ExtractBytes | src/protocol/Framer.cpp:41-60 | exactly the required bytes are taken off the front when they are there; more than 10 MB is refused and fewer bytes wait, with the buffer unchanged |
| Framer.LineFrameAppend | src/protocol/Framer.cpp:13-38 | later bytes never change a delivered line, and change a refusal only for a line of 8192 to 65536 bytes |
| Framer.ContestedRefused | src/protocol/Framer.cpp:15-36 | such a line is delivered when it is there at once and refused when its first 8193 bytes come alone |
| HttpRequestParser.HttpRequestParser.ParseRequestLine | src/Http/HttpRequestParser.cpp:205-227 | the split at the first two spaces, and what the request becomes and when the line is accepted, also on the failing paths that have already stored fields |
| HttpRequestParser.HttpRequestParser.ParseHeaderLine | src/Http/HttpRequestParser.cpp:229-251 | the trimming loop and the store: the field as it is read, or the request unchanged when there is no colon |
| HttpRequestParser.HttpRequestParser.TakeLine | src/Http/HttpRequestParser.cpp:33-200 | the effect of one line in each of the five states that read lines |
| HttpRequestParser.HttpRequestParser.TakeTurn | src/Http/HttpRequestParser.cpp:9-199 | one turn of the loop on parser, buffer and request is one `Step` of the value, and a turn that waits changes nothing |
| HttpRequestParser.HttpRequestParser.Parse | src/Http/HttpRequestParser.cpp:5-203 | the whole loop computes `Run`: result, state, remaining length, request and buffer |
| HttpRequestParser.Step | src/Http/HttpRequestParser.cpp:7-200 | termination: every turn that does not wait makes the buffer shorter or keeps it and lowers the rank of the state |
| HttpRequestParser.Run | src/Http/HttpRequestParser.cpp:5-203 | the result tells the final state, the buffer never grows, and a request that starts at its request line costs at least one byte |
| ParserLaws.RunKeeps | src/Http/HttpRequestParser.cpp:7-203 | the invariant of a reset parser survives every call: no body before the body states, a positive chunk remainder with at most 10 MB in all, and a Content-Length request delivered with exactly the declared length |
| ParserLaws.RunTail | src/Http/HttpRequestParser.cpp:5-203 | what is left in the buffer is the end of what was given |
| ParserLaws.Resume | src/Http/HttpRequestParser.cpp:5-203 | with no bound on lines: after Incomplete, going on with later bytes equals starting over with all of them; after Success, later bytes are only left over |
| ParserLaws.ResumeBad | src/protocol/Framer.cpp:13-38 | a refusal is final for a message without contested lines |
| ParserLaws.UntameSplit | src/protocol/Framer.cpp:33-36 | every message that asks for a contested line has a first part that is refused |
| ParserLaws.SplitIndependentExactly | src/Http/HttpRequestParser.cpp:5-203 | one message gives the same answer for every cut in two if and only if no line asked for is contested or the whole is refused |
| ChunkSizes.ChunkSizeIs | src/Http/HttpRequestParser.cpp:43-74 | a chunk-size line is read if and only if the core of its size field is a hexadecimal numeral below 2^64, and as its value |
| ChunkSizes.RfcLineIsSpan | src/Http/HttpRequestParser.cpp:43-74 | by the RFC a line has at most one chunk size: all the digits that it begins with |
| ChunkSizes.AgreesWithRfcExactly | src/Http/HttpRequestParser.cpp:43-74 | against `chunk-size [ chunk-ext ]` of section 7.1 of RFC 9112, with the whole grammar of extensions: the code agrees on a line if and only if its size field is no decorated numeral, no `;` after a numeral begins an illegal extension, and no white space stands between a numeral and a legal extension; it reads the first two kinds and refuses the third |
| ChunkSizes.DepartureWitnesses | src/Http/HttpRequestParser.cpp:43-74 | `0x5`, a numeral with a NUL, an empty extension name and a padded legal extension, each with both answers |
| MessageGrammar.ChunkedRead | src/Http/HttpRequestParser.cpp:32-149 | every legal chunked body is read to its concatenated data, and what follows is left |
| MessageGrammar.ChunkedParse | src/Http/HttpRequestParser.cpp:32-149 | whatever the chunk states accept is a legal chunked body followed by what they leave |
| MessageGrammar.ChunkedExactly | src/Http/HttpRequestParser.cpp:32-149 | the chunk states accept exactly the grammar: chunks, last chunk, trailer lines, empty line, within the line limits and 10 MB; the meaning is unique |
| MessageGrammar.StartRead | src/Http/HttpRequestParser.cpp:205-227 | the token of each of the six methods, a path without spaces and a version are read as these |
| MessageGrammar.StartParse | src/Http/HttpRequestParser.cpp:205-227 | every start line that is accepted is made of the token of one of the six methods, a non-empty path without spaces, and a version |
| MessageGrammar.StartExactly | src/Http/HttpRequestParser.cpp:205-262 | a start line is accepted if and only if it is a method's own token, a path and a version, and then exactly these are stored; every other token is refused |
| MessageGrammar.FieldRead | src/Http/HttpRequestParser.cpp:229-251 | a header line made of name, optional white space and value is read as that field |
| MessageGrammar.FieldParse | src/Http/HttpRequestParser.cpp:229-251 | every header line that is accepted is such a field |
| MessageGrammar.FramingIs | src/Http/HttpRequestParser.cpp:178-193 | a body is chunked if and only if the transfer coding contains `chunked`, whatever the length says, and otherwise has the declared length if that is not 0 |
| MessageGrammar.MessageExactly | src/Http/HttpRequestParser.cpp:5-262 | the parser delivers a request if and only if the buffer begins with a legal message, written with the tokens and framing rules of the grammar, and then its meaning and the rest; so messages are unambiguous |
| MessageGrammar.DeliveredStart | src/Http/HttpRequestParser.cpp:205-262 | a delivered request's buffer begins with the token of its method, its path and its version |
| HttpResponse.Finalized | src/Http/HttpResponse.cpp:44-60 | the response closes exactly when its `Connection` header says so, which is when the client or the handler wants it; status and body stay |
| HttpResponse.FinalizedHeaders | src/Http/HttpResponse.cpp:44-60 | `Connection` becomes `close` or `keep-alive` by the closing flag, and every other header of the handler is found as it was |
| HttpResponse.AsksToCloseExactly | src/Http/HttpResponse.cpp:48-56 | a handler asks to close if and only if its `Connection` header mentions `close` in any capitalisation |
| HttpResponse.HttpResponse.FinalizeForConnection | src/Http/HttpResponse.cpp:44-60 | the object becomes the finalized response |
| HttpResponseEncoder.SetResponseHeader | src/Http/HttpResponseEncoder.cpp:91-110 | framing headers and body type by the three sizes of the body, with the deletions as they are |
| HttpResponseEncoder.EncodeHeaders | src/Http/HttpResponseEncoder.cpp:30-43 | the header loop writes every header once, in the order in which the map is walked, and the empty line |
| HttpResponseEncoder.EncodeChunks | src/Http/HttpResponseEncoder.cpp:60-84 | the offset loop writes the body as consecutive chunks of 64 KB and a rest, and the last chunk |
| HttpResponseEncoder.Encode | src/Http/HttpResponseEncoder.cpp:13-89 | status line, header block in the order of the walk, and the body by its type or none for HEAD; the response keeps its new framing |
| EncoderRoundTrip.ChunkLoopLegal | src/Http/HttpResponseEncoder.cpp:58-85 | what the chunk loop writes is a legal chunked body, with sizes that section 7.1 of RFC 9112 reads as the lengths of the chunks, whose data is the response body |
| EncoderRoundTrip.ChunkedRoundTrip | src/Http/HttpResponseEncoder.cpp:58-85 | the chunk states read the output of the chunk loop back as the same body of up to 10 MB, with any suffix left over |
| EncoderRoundTrip.HeaderBlockRead | src/Http/HttpResponseEncoder.cpp:30-43 | a header block is read back as the same map for every order in which it was written |
| EncoderRoundTrip.DeletionsDoNothing | src/Http/HttpResponseEncoder.cpp:97-107 | both `del` calls of the encoder leave every stored header map as it was |
| EncoderRoundTrip.ConflictExactly | src/Http/HttpResponseEncoder.cpp:91-110 | both framing headers are sent if and only if the handler had set the one that is to be deleted |
| EncoderRoundTrip.PlainReadAsChunks | src/Http/HttpRequestParser.cpp:180-184 | a body sent as it is and announced as chunked is never read back as itself |
| EncoderRoundTrip.MessageRoundTripExactly | src/Http/HttpResponseEncoder.cpp:13-110 | whole messages, for every order of headers and every suffix: headers, body and exactly the suffix come back if and only if `ReadsBack` holds of the handler's response |
| EncoderRoundTrip.RoundTripFails | src/Http/HttpResponseEncoder.cpp:104-109 | a two-byte body with a handler-set chunked header is not read back, whatever follows |
| ReplyRoundTrip.StatusLineRead | src/Http/HttpResponseEncoder.cpp:20-25 | for every code and every reason without CR LF that fits a line, the first line of the wire splits into HTTP/1.1, a decimal with the value of the code, and the reason, and what follows is untouched |
| ReplyRoundTrip.FinalFit | src/Http/HttpResponseEncoder.cpp:91-110 | the headers sent are the handler's, with only `Connection` and one framing header replaced, which is chunked or the length of the body |
| ReplyRoundTrip.ReplyRead | src/network/EventLoop.cpp:347-357 | end to end for one reply and any bytes after it: a reader of lines and fields gets the handler's status and headers, and the body exactly when the handler's framing headers allow it |
| ReplyRoundTrip.TooManyIs | src/network/EventLoop.cpp:330-345 | the page for a limited request reads as 429, Too Many Requests, with `Retry-After: 1`, and closes |
| ReplyRoundTrip.BadRequestIs | src/network/EventLoop.cpp:312-327 | the page for a bad request reads as 400, Bad Request, and closes |
| ReplyRoundTrip.ClientReadsReplies | src/network/EventLoop.cpp:253-486 | over every run, with handlers whose responses can be sent, the bytes sent and queued are read as exactly the replies, one after the other, with nothing left |
| Session.UncutIsFinished | src/network/EventLoop.cpp:300-373 | a pass that answers fewer requests than its cut has left nothing to do |
| Session.PassFed | src/network/EventLoop.cpp:300-373 | one pass over the first bytes, cut anywhere, does not change what serving all the bytes will give |
| Session.SplitIndependent | src/network/EventLoop.cpp:262-373 | without contested lines, every division into read tasks, each cut after 51 requests, gives the replies, leftover bytes and parser state of one pass over the whole stream |
| Session.ServedBefore | src/network/EventLoop.cpp:262-373 | the same while bytes that nobody has parsed yet follow the ones served |
| Session.CutsOnlyRefuse | src/network/EventLoop.cpp:262-373 | for every stream: a division gives the same, or a 400 in place of the rest after the same replies |
| Session.Drained | src/network/EventLoop.cpp:368-410 | resubmitted passes without new bytes serve a connection to the end |
| Session.RepliesPrefix | src/network/EventLoop.cpp:262-373 | the replies to part of a stream are a prefix of the replies to all of it |
| Session.SplitIndependentExactly | src/network/EventLoop.cpp:262-373 | a new connection answers a stream that has not ended in the same way for every division if and only if no contested line is asked for before the first refusal |
| Session.EndLosesExactly | src/network/EventLoop.cpp:262-288 | when the end comes with or after some bytes, the replies given are the first of those to the whole stream, what is lost is what serving to the end would add, and something is lost if and only if the parser would not have waited |
| Session.EndedAlikeExactly | src/network/EventLoop.cpp:262-288 | a stream that has ended is answered in the same way for every division of its bytes and its end if and only if it asks for no contested line and gets no reply |
| ShortLines.ShortLinesAreTame | src/protocol/Framer.cpp:13-38 | a stream of legal messages whose start, field, chunk and trailer lines have at most 8191 bytes, and at most 8193 bytes after them, asks for no contested line |
| ShortLines.PipeliningInOrder | src/network/EventLoop.cpp:295-373 | legal messages without long lines on a connection that stays open are answered one by one, in order, with nothing left over, for every division |
| Connection.Connection.Flush | src/network/Connection.cpp:46-73 | for every sequence of results of `send`, the object ends up as `FlushOf` says, and the result tells an empty buffer from a full socket and an error |
| Connection.FlushTakes | src/network/Connection.cpp:46-73 | the bytes taken off the front are the sum of what the calls take before the first that takes nothing, at most the buffer, and there is an error if and only if bytes are left when that call fails with other than EAGAIN |
| Connection.Connection.Respond | src/network/EventLoop.cpp:350-357 | a response is encoded and queued behind the ones before it |
| Connection.Connection.AnswerRequest | src/network/EventLoop.cpp:347-357 | the handler's response is finished for the connection and queued, and says whether to close |
| Connection.Connection.Refuse | src/network/EventLoop.cpp:312-345 | the 400 and the 429 response are queued as the next message |
| Connection.Connection.HandleRequest | src/network/EventLoop.cpp:302-366 | one turn of the parse loop on parser, request, buffers and replies, also when it closes or refuses |
| Connection.Connection.ParseLoop | src/network/EventLoop.cpp:295-373 | the loop with its counter is the recursion cut after 51 requests, and says whether it was cut |
| Connection.Connection.Drain | src/network/EventLoop.cpp:262-286 | the drain loop appends what was received, in order |
| Connection.Connection.ReadTask | src/network/EventLoop.cpp:253-428 | the whole state after drain, parse loop and flush, and the way on, as `ReadTaskOf` says; what that amounts to is stated by the rows of `ConversationUpkeep` |
| Connection.Connection.WriteTask | src/network/EventLoop.cpp:441-486 | the whole state after the flush, and the way on: removal on an error, of a drained connection that is to close or a stopping server's, otherwise arming by queued bytes and loop state |
| Conversation.Converse | src/network/EventLoop.cpp:99-127 | every run of events on a connection takes the object, what epoll is armed for and the waiting tasks to exactly the situation that the functions over values compute from these events |
| Conversation.OutputConserved | src/network/EventLoop.cpp:350-381 | every run, of any tasks with any partial sends, keeps sent followed by queued equal to the encoded replies in order |
| Conversation.AnsweredInOrder | src/network/EventLoop.cpp:253-486 | over every run: bytes sent and queued are the encoded replies; the replies up to the first closing one are those of a session told what the read tasks found; without contested lines they are the first replies to the whole stream in one pass, which the remaining bytes complete |
| Conversation.LateRepliesExactly | src/network/EventLoop.cpp:382-398 | a reply follows a closing one if and only if a read task of the run found a closing reply given and completed, refused or limited a request |
| Conversation.FlagAfterClosing | src/network/EventLoop.cpp:384-397 | in every run the flag is only set once a closing reply has been given |
| Conversation.AnswersAfterClose | src/network/EventLoop.cpp:382-486 | for every router, once the limiter allows a first request, a run from the start in which the flag is set, the write task arms input again, and a read task gives a second reply |
| ConversationUpkeep.ArmedExactly | src/network/EventLoop.cpp:400-405 | over every run, when only epoll can wake a connection whose last task did not ask for removal: output is armed if and only if bytes are queued and no report was ignored since, something is armed if and only if none was, and input is unless the connection is to close or the server stops |
| ConversationUpkeep.NoRequestForgotten | src/network/EventLoop.cpp:368-410 | over every run, while a connection goes on, neither a complete nor a bad request lies in its buffer without a read task or a resubmission to come |
| ConversationUpkeep.ResubmitsExactly | src/network/EventLoop.cpp:368-410 | a read task is resubmitted if and only if it answered 51 requests, did not close or ask for removal, and the server runs |
| ConversationUpkeep.AskedExactly | src/network/EventLoop.cpp:376-486 | which tasks ask for removal and which set the flag, by the end of the stream, send failures, the last new reply, queued bytes, the flag and the server's state |
| ConversationUpkeep.LingersExactly | src/network/EventLoop.cpp:382-405 | with the flag set and nothing to send, exactly a read task that has closed nothing itself leaves the connection open |
| ConversationUpkeep.LingersOpen | src/network/EventLoop.cpp:382-405 | for every router, once the limiter allows a first request, a run from the start after which that has happened |
| ConversationUpkeep.StoppingStrands | src/network/EventLoop.cpp:115-124 | the same for queued bytes and nothing armed, after an ignored report of input |
| ConversationUpkeep.LimitsKept | src/network/EventLoop.cpp:328-345 | over every run the n-th reply is an answer only if the limiter allowed the n-th request, and a 429 only if it did not |
| RateLimiter.RateLimiter.FindOrCreate | src/middleware/RateLimiter.cpp:18-38 | the bucket of the address, full when it is new, in the shard of the address; no other bucket changes |
| RateLimiter.RateLimiter.Allow | src/middleware/RateLimiter.cpp:13-64 | the decision and the new bucket, with every other address unchanged, on all shards seen as one map |
| RateLimiter.RateLimiter.SweepShard | src/middleware/RateLimiter.cpp:72-91 | erasing while iterating removes exactly the stale buckets of a shard |
| RateLimiter.RateLimiter.SweepStale | src/middleware/RateLimiter.cpp:66-93 | exactly the stale buckets of all shards are gone |
| RateLimiterLaws.AllowedExactly | src/middleware/RateLimiter.cpp:49-63 | a call is allowed if and only if, for every call up to it, the allowed calls since then and this one fit into capacity and refill |
| RateLimiterLaws.BurstBound | src/middleware/RateLimiter.cpp:49-63 | no window of calls lets through more than the capacity and the refill of its duration |
| RateLimiterLaws.TokensInRange | src/middleware/RateLimiter.cpp:55-61 | tokens always lie between 0 and the capacity |
| RateLimiterLaws.SpacedNeverRefused | src/middleware/RateLimiter.cpp:49-63 | a client that leaves the time of a token between its calls is never refused |
| RateLimiterLaws.FlatAnswer | src/middleware/RateLimiter.cpp:13-64 | with many addresses in one history, each answer is that of the law on the address's own call times |
| SweepTransparency.SweepsInvisible | src/middleware/RateLimiter.cpp:66-93 | with harmless sweeps inserted anywhere, every call gets the answer of a limiter that never evicts |
| SweepTransparency.ServerLimiter | include/network/EventLoop.h:46 | at 10 a second, bursts of 20 and eviction after 300 seconds, every answer follows the sliding-window law |
| SweepTransparency.InvisibleExactly | src/middleware/RateLimiter.cpp:66-93 | eviction is invisible in all histories if and only if an idle time of one millisecond over the limit refills a bucket completely |
| TaskQueue.TaskQueue.Submit | src/concurrency/TaskQueue.cpp:4-28 | after its wait, the ring holds what the protocol's `Submitted` says: the task appended, or refused with nothing changed when the queue has stopped |
| TaskQueue.TaskQueue.Remove | src/concurrency/TaskQueue.cpp:30-61 | after its wait, the ring yields what the protocol's `Removed` says: the first task, or the empty task from a stopped and empty queue |
| QueueProtocol.InvKept | src/concurrency/TaskQueue.cpp:4-70 | every step of every thread keeps FIFO order, wakeups, roles, exits and single execution |
| QueueProtocol.WakeupEmptyKept | src/concurrency/TaskQueue.cpp:23-37 | while a worker sleeps there are at least as many notifications and woken workers on the way as tasks |
| QueueProtocol.WakeupFullKept | src/concurrency/TaskQueue.cpp:8-11 | while a producer sleeps and the queue runs there are at least as many notifications and woken producers on the way as free places |
| QueueProtocol.NobodyLeftAsleepKept | src/concurrency/TaskQueue.cpp:63-70 | after `stop` nobody sleeps without a broadcast to come |
| QueueProtocol.EveryRunIsSafe | src/concurrency/TaskQueue.cpp:4-70 | in every reachable state accepted is taken followed by queued, at most 1024, and no wakeup is lost |
| QueueProtocol.QuietSleepers | src/concurrency/TaskQueue.cpp:8-37 | once nothing is on the way, workers sleep only on an empty and producers only on a full running queue |
| QueueProtocol.ShutdownDrains | src/concurrency/ThreadPool.cpp:10-38 | when all workers have exited and fewer empty tasks than workers were accepted, every accepted task was taken in order and every non-empty one run exactly once per submission |
| QueueProtocol.StrandsExactly | src/concurrency/ThreadPool.cpp:25-38 | for every number of workers and every start with a thread outside the pool: some run ends with all workers gone, `e` empty tasks accepted and a job queued if and only if workers <= e < workers + 1024 |
| PerIpConnectionLimiter.PerIpConnectionLimiter.TryAcquire | src/middleware/PerIpConnectionLimiter.cpp:3-10 | a slot is taken exactly when the address is under its limit, and counts stay within 1 and the limit |
| PerIpConnectionLimiter.PerIpConnectionLimiter.Release | src/middleware/PerIpConnectionLimiter.cpp:12-18 | one slot is given back and no zero entry is left |
| EventLoopOwnership.OwnershipKept | src/network/EventLoop.cpp:166-521 | every step keeps the ownership of descriptors, slots and mutexes |
| EventLoopOwnership.TaskRemovesItsOwn | src/network/EventLoop.cpp:423-463 | when a read or write task removes its descriptor, the map has the connection that it captured, or nothing, in every reachable state |
| EventLoopOwnership.WaitingGoesDown | src/network/EventLoop.cpp:497-546 | a thread waits only for a thread of a lower level: the map's mutex is awaited only with mutexes of erased connections held, and its holder waits only for mapped ones |
| EventLoopOwnership.NoWaitCycle | src/network/EventLoop.cpp:497-546 | no reachable state has a cycle of threads waiting for these mutexes, and no chain of more than four |
| EventLoopAccounting.TotalMove | src/network/EventLoop.cpp:174-237 | every step keeps the counter equal to its balance modulo 2^64, and balance plus threads past the check within the limit and its slack |
| EventLoopAccounting.CapWithSlack | src/network/EventLoop.cpp:174-237 | in every reachable state the counter is mapped plus erased-not-subtracted minus inserted-not-added, and the map has at most 10000 + k - 1 connections |
| EventLoopAccounting.SlotsReleasedOnce | src/network/EventLoop.cpp:497-508 | each address's count is its mapped connections plus slots between acquisition and insertion or erasure and release, within 1 and 100; no connection is released twice |
| EventLoopBacklog.NobodyStranded | src/network/EventLoop.cpp:166-239 | in every reachable state of a running server, a client that waits with room in the counter and neither an event to come nor a thread on its way to accept implies that the last leave of the accept loop was by a fatal error, with no client and no entry since |
| EventLoopBacklog.RescuedExactly | src/network/EventLoop.cpp:497-521 | a stranded server stays stranded under exactly the steps that are no arrival, no stop, and no thread removing a connection or entering the accept loop |
| EventLoopBacklog.WaitsOnlyWhenFull | src/network/EventLoop.cpp:514-520 | at rest, unless the accept loop was last left by a fatal error, a client waits only while at least 10000 connections are mapped |
| EventLoopBacklog.FatalErrorStrands | src/network/EventLoop.cpp:191-193 | a run from the start to a stranded server that is empty and at rest |
| EventLoopCapReached.CapIsReached | src/network/EventLoop.cpp:174-237 | for every number of threads k up to 10000 some run fills the map with exactly 10000 + k - 1 connections |
| EventLoopDuties.DutiesAreDone | src/network/EventLoop.cpp:86-127 | over every run, what a thread takes up it has done before it is idle again: a hang-up or a stale connection is erased and goes on to be released, input and output become a task for the mapped connection, a task runs with its connection's mutex, a resubmission looks up again, a failed task removes its own |
| EventLoopDuties.HangUpErases | src/network/EventLoop.cpp:110-114 | between taking up a hang-up or an eviction and turning to other work, epoll or a sweep, thread 0 has erased the descriptor |
| EventLoopDuties.RemovalRuns | src/network/EventLoop.cpp:497-508 | from every reachable state with such work next, the connection mapped and the map's mutex free, some run unmaps it, gives back one slot of its address and no other, and lowers the counter by one |
| EventLoopDuties.SweepEvictsStale | src/network/EventLoop.cpp:523-551 | over every run, a sweep has looked at every connection that was mapped, and exactly the stale ones are to be evicted |
| EventLoopDuties.TasksConserved | src/network/EventLoop.cpp:241-460 | over every run, the tasks for connections that were found and the second calls of running read tasks are taken in the order of their submission or still queued |
| EventLoopDuties.NoSocketForgotten | src/network/EventLoop.cpp:200-222 | over every run, every accepted socket without a connection is in the hands of a thread |

## Left out

- System calls are answered by the environment within their documented ranges; a descriptor that is open is never handed out again, and adding a socket to epoll succeeds (`src/network/EventLoop.cpp:225-235`).
- The event loop ends before `cleanup_all_connections`, which closes descriptors that the destructor closes again.
- The methods of the event loop that accept, look up and remove are cut into the steps of a state machine instead of being a class, because they interleave; per connection, the tasks are methods in `Connection`.
- `EventLoop` does not model EPOLLONESHOT arming: input, output and hang-up events may come for any descriptor at any time, which only adds runs. `Conversation` models it for one connection.
- Conversation.Converse: the tasks of one connection run one after the other, as its mutex makes them; a resubmitted `handle_client_read` may come at any time, because its descriptor can be that of an earlier connection; a handler that throws is not modelled.
- Session.SplitIndependent: ends at the first closing reply (`Conversation` goes on after it), and the limiter's answer to the n-th request of a connection is a parameter, so that timing does not enter.
- Session.SplitIndependentExactly: the end of the stream is not part of it; it has theorems of its own.
- RateLimiter.RateLimiter.Allow: one atomic step on real numbers; floating-point rounding and an eviction between the lookup and the lock of the bucket are not modelled.
- TaskQueue.TaskQueue.Submit: the critical section once the wait has ended; waiting and waking are in `QueueProtocol`, which uses the sequence that the ring denotes.
- The event loop's queue of tasks is unbounded in `EventLoop`, so a worker that blocks in `submit` on a full queue is outside the claim about waiting.
- Liveness: that a thread which can move does move is not part of the model.
- A status code is a natural number; the program's `int` could be negative.
- Handlers and the router are a function from requests to responses; the route table, `json` and logging are not modelled. The order in which an unordered map is walked is a parameter, any order with each key once; `Connection.SomeWalks` shows that there is one for every map.
- HEAD: the encoder's flag is modelled, but the event loop never sets it.
- `has_pending_writes` of the event loop, which nothing calls.
- HTTP validity beyond what the parser looks at (field names, version, conflicting framing headers of requests): the grammar says what is accepted, not what should be.
