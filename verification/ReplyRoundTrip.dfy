/** What a client reads of the bytes that it gets: each reply's status line, its
    headers and its body, by a reader that knows nothing of the encoder. */
module ReplyRoundTrip {
  import opened Bytes
  import opened Numerals
  import opened HttpHeaders
  import opened HttpRequest
  import opened HttpResponse
  import opened HttpResponseEncoder
  import opened Framer
  import opened HttpRequestParser
  import opened ParserLaws
  import opened MessageGrammar
  import opened EncoderRoundTrip
  import opened Session
  import opened Connection
  import opened Conversation

  // -------------------------------------------------------------- status lines

  /** The three parts of a status line, section 4 of RFC 9112. */
  datatype Status = Status(version: Buffer, code: Buffer, reason: Buffer)

  /** A line split at its first two spaces. */
  function StatusOf(line: Buffer): Option<Status> {
    var first := Find(line, ' ');
    if first == |line| then None
    else
      var tail := line[first + 1..];
      var second := Find(tail, ' ');
      if second == |tail| then None else Some(Status(line[..first], tail[..second], tail[second + 1..]))
  }

  /** The buffer begins with a line that says HTTP/1.1, this code and this reason,
      and goes on with `rest`. */
  ghost predicate StatusIs(b: Buffer, code: nat, reason: Buffer, rest: Buffer) {
    var f := LineFrame(b);
    && f.status == Success && f.rest == rest
    && var s := StatusOf(f.out);
       && s.Some? && s.value.version == "HTTP/1.1" && s.value.reason == reason
       && s.value.code != [] && AllDigits(s.value.code, 10) && Value(s.value.code, 10) == code
  }

  /** A reason that can be sent: without a CR LF, on a line that can be read. */
  ghost predicate Speakable(code: nat, reason: Buffer) {
    NoCrlf(reason) && |Show(code, 10)| + |reason| + 10 <= MAX_CHUNK_BODY_SIZE
  }

  lemma PlainPrefix(pre: Buffer, s: Buffer)
    requires '\r' !in pre && NoCrlf(s)
    ensures NoCrlf(pre + s)
  {
    var b := pre + s;
    forall i | 0 <= i < |b|
      ensures !CrlfAt(b, i)
    {
      if i < |pre| {
        assert b[i] == pre[i];
      } else {
        assert !CrlfAt(s, i - |pre|);
      }
    }
  }

  /** Every status line is read as what it was made from, for every code and every
      reason that can be sent. */
  lemma StatusLineRead(r: Response, rest: Buffer)
    requires Speakable(r.code, r.message)
    ensures StatusIs(StatusLine(r) + rest, r.code, r.message, rest)
  {
    var digits := Show(r.code, 10);
    assert ' ' !in digits && '\r' !in digits;
    hide Show, Value, FirstCrlf, NoCrlf, LineFrame, StatusOf;
    var pre := "HTTP/1.1 " + digits + " ";
    var line := pre + r.message;
    PlainPrefix(pre, r.message);
    LineFrameOfLine(line, rest);
    StatusSplit(digits, r.message);
    LineShape(digits, r.message);
  }

  lemma LineShape(digits: Buffer, reason: Buffer)
    ensures "HTTP/1.1 " + digits + " " + reason == "HTTP/1.1" + ([' '] + (digits + ([' '] + reason)))
  {
  }

  lemma StatusSplit(digits: Buffer, reason: Buffer)
    requires ' ' !in digits
    ensures StatusOf("HTTP/1.1" + ([' '] + (digits + ([' '] + reason)))) == Some(Status("HTTP/1.1", digits, reason))
  {
    FindIn("HTTP/1.1", ' ', digits + ([' '] + reason));
    FindIn(digits, ' ', reason);
  }

  // ------------------------------------------------------------------- headers

  /** The buffer begins with header lines and an empty line that together mean
      these headers, and goes on with `rest`. */
  ghost predicate HeadersAre(b: Buffer, headers: HeaderMap, rest: Buffer) {
    exists fs :: LegalFields(fs) && b == LinesBytes(FieldLines(fs)) + rest && HeadersOf(fs, map[]) == headers
  }

  lemma BlockMeans(order: seq<Buffer>, headers: HeaderMap, rest: Buffer)
    requires Writable(headers) && IsOrder(order, headers)
    ensures HeadersAre(HeaderBlock(order, headers) + rest, headers, rest)
  {
    hide LegalFields, Writable, LinesBytes, FieldLines, FieldsOf, HeadersOf;
    HeaderBlockIsLines(order, headers);
    FieldsOfLegal(order, headers);
    WritableLowered(headers);
    HeadersOfFields(order, headers, map[]);
    assert map[] + Entries(order, headers) == headers;
  }

  /** The headers that a client gets are those of the handler, except that
      `Connection` says whether the connection stays open and that one framing
      header, by the size of the body, is the encoder's. */
  ghost predicate HeadersFit(headers: HeaderMap, made: Response, closes: bool) {
    var framing := if |made.body| > MAX_CHUNK_SIZE then "transfer-encoding" else "content-length";
    && Lookup(headers, "connection") == Some(if closes then "close" else "keep-alive")
    && (|made.body| > MAX_CHUNK_SIZE ==> Lookup(headers, framing) == Some("chunked"))
    && (|made.body| <= MAX_CHUNK_SIZE ==>
          && Lookup(headers, framing).Some?
          && AllDigits(Lookup(headers, framing).value, 10) && Value(Lookup(headers, framing).value, 10) == |made.body|)
    && forall k :: ToLower(k) != "connection" && ToLower(k) != framing ==> Lookup(headers, k) == Lookup(made.headers, k)
  }

  lemma Keys()
    ensures ToLower("connection") == "connection" && ToLower("transfer-encoding") == "transfer-encoding"
    ensures ToLower("content-length") == "content-length" && ToLower("Connection") == "connection"
    ensures "connection" != "transfer-encoding" && "connection" != "content-length"
  {
    assert "transfer-encoding"[0] == 't';
    assert |"connection"| == 10 && |"content-length"| == 14;
  }

  lemma FinalizedLowered(made: Response, clientKeeps: bool)
    requires Lowered(made.headers)
    ensures Lowered(Finalized(made, clientKeeps).headers)
  {
    hide AsksToClose;
    Keys();
  }

  lemma FinalFit(made: Response, clientKeeps: bool)
    requires Lowered(made.headers)
    ensures var f := Finalized(made, clientKeeps); HeadersFit(WithFraming(f).headers, made, f.closeAfterSend)
  {
    hide Lowered, AsksToClose, Show, WithFraming, ToLower;
    var f := Finalized(made, clientKeeps);
    FinalizedLowered(made, clientKeeps);
    FinalizedHeaders(made, clientKeeps);
    FramedHeaders(f);
    Keys();
    hide Finalized, AllDigits, Value;
  }

  // ------------------------------------------------------------- a whole reply

  lemma FinalizedWritable(made: Response, clientKeeps: bool)
    requires Writable(made.headers)
    ensures Writable(Finalized(made, clientKeeps).headers)
  {
    hide AsksToClose, LegalLine;
    Keys();
    ConnectionWritable();
    var f := Finalized(made, clientKeeps);
    forall k | k in f.headers
      ensures WritableField(k, f.headers[k])
    {
      assert k != "connection" ==> k in made.headers && f.headers[k] == made.headers[k];
    }
  }

  lemma ConnectionWritable()
    ensures WritableField("connection", "close") && WritableField("connection", "keep-alive")
  {
    Keys();
    assert ':' !in "connection";
    assert "connection" + (":" + (" " + "close")) == "connection: close";
    assert "connection" + (":" + (" " + "keep-alive")) == "connection: keep-alive";
    assert '\r' !in "connection: close" && '\r' !in "connection: keep-alive";
  }

  /** A reply that its handler made so that it can be sent as it is meant. */
  ghost predicate Sendable(made: Response) {
    && Speakable(made.code, made.message) && Writable(made.headers)
    && |made.body| <= MAX_HTTP_BODY_SIZE
  }

  /** A client reads the reply off the front of its buffer: status line, headers,
      and, if the handler's framing headers allow it, the body. */
  ghost predicate ReadsReply(b: Buffer, made: Response, closes: bool, rest: Buffer) {
    exists afterLine, afterHeaders, headers ::
      && StatusIs(b, made.code, made.message, afterLine)
      && HeadersAre(afterLine, headers, afterHeaders) && HeadersFit(headers, made, closes)
      && (ReadsBack(made) <==>
            Delivers(Machine(Headers, 0, EmptyRequest, afterLine),
                     EmptyRequest.(headers := headers, body := made.body), rest))
  }

  /** End to end, for one reply: its bytes, whatever follows them, are read as the
      status, headers and body that the handler made, or as the page that refuses
      the request. */
  lemma ReplyRead(server: Server, n: nat, reply: Reply, rest: Buffer)
    requires Walks(server) && Sendable(Made(server, reply))
    ensures ReadsReply(WireOf(server, n, reply) + rest, Made(server, reply), Closes(server, reply), rest)
  {
    hide StatusIs, HeadersAre, HeadersFit, Delivers, StatusLine, ReadsBack, Writable, Made, ClientKeeps, WithFraming;
    hide Walks, Tail, BodyPart, HeaderBlock, Speakable, Finalized, Run, Lowered;
    var made, r := Made(server, reply), ResponseTo(server, reply);
    var f := WithFraming(r);
    var order := server.walk(n, f.headers);
    WalkIsOrder(server, n, f.headers);
    var afterLine, afterHeaders := TailParts(f, order, rest);
    hide IsOrder;
    assert WireOf(server, n, reply) + rest == StatusLine(r) + afterLine;
    StatusLineRead(r, afterLine);
    FinalizedWritable(made, ClientKeeps(reply));
    FramedWritable(r);
    BlockMeans(order, f.headers, afterHeaders);
    WritableLowered(made.headers);
    FinalFit(made, ClientKeeps(reply));
    MessageRoundTripExactly(Machine(Headers, 0, EmptyRequest, afterLine), r, order, rest);
    FinalizedReadsBack(made, ClientKeeps(reply));
  }

  lemma TailParts(f: Response, order: seq<Buffer>, rest: Buffer) returns (afterLine: Buffer, afterHeaders: Buffer)
    requires IsOrder(order, f.headers)
    ensures afterLine == Tail(f, order, false) + rest == HeaderBlock(order, f.headers) + afterHeaders
  {
    hide IsOrder, HeaderBlock, BodyPart;
    afterHeaders := BodyPart(f) + rest;
    afterLine := Tail(f, order, false) + rest;
  }

  lemma WalkIsOrder(server: Server, n: nat, headers: HeaderMap)
    requires Walks(server)
    ensures IsOrder(server.walk(n, headers), headers)
  {
  }

  lemma FinalizedReadsBack(made: Response, clientKeeps: bool)
    ensures ReadsBack(Finalized(made, clientKeeps)) <==> ReadsBack(made)
  {
    hide AsksToClose, Contains;
    FramingKeys();
    Keys();
  }

  // ----------------------------------------------------------- the two refusals

  /** The page for a request over the limit: 429, and when to come back. */
  lemma TooManyIs(server: Server)
    ensures var made := Made(server, TooManyRequests);
            && Sendable(made) && ReadsBack(made) && Closes(server, TooManyRequests)
            && made.code == 429 && made.message == "Too Many Requests"
            && Lookup(made.headers, "Retry-After") == Some("1")
  {
    PageWords();
    var made := Made(server, TooManyRequests);
    assert made.headers == map["retry-after" := "1", "content-type" := "text/html; charset=utf-8"];
    hide ToLower, LegalLine, Show, NoCrlf;
    NotChunked(made.headers);
  }

  /** The page for a request that cannot be parsed: 400. */
  lemma BadRequestIs(server: Server)
    ensures var made := Made(server, BadRequest);
            && Sendable(made) && ReadsBack(made) && Closes(server, BadRequest)
            && made.code == 400 && made.message == "Bad Request"
  {
    PageWords();
    var made := Made(server, BadRequest);
    assert made.headers == map["content-type" := "text/html; charset=utf-8"];
    hide ToLower, LegalLine, Show, NoCrlf;
    NotChunked(made.headers);
  }

  lemma NotChunked(headers: HeaderMap)
    requires "transfer-encoding" !in headers
    ensures !SaysChunked(headers)
  {
    hide Contains;
    FramingKeys();
  }

  lemma PageWords()
    ensures ToLower("Retry-After") == "retry-after" && ToLower("Content-Type") == "content-type"
    ensures WritableField("retry-after", "1") && WritableField("content-type", "text/html; charset=utf-8")
    ensures "transfer-encoding" != "retry-after" && "transfer-encoding" != "content-type"
    ensures Speakable(429, "Too Many Requests") && Speakable(400, "Bad Request")
  {
    hide WritableField, Speakable;
    ReasonWords();
    RetryAfterWord();
    ContentTypeWord();
    assert |"retry-after"| == 11 && |"content-type"| == 12 && |"transfer-encoding"| == 17;
  }

  lemma ReasonWords()
    ensures Speakable(429, "Too Many Requests") && Speakable(400, "Bad Request")
  {
    hide Value, Show;
    ShortNumeral(429, 10);
    ShortNumeral(400, 10);
    assert '\r' !in "Too Many Requests" && '\r' !in "Bad Request";
  }

  lemma PlainField(key: Buffer, value: Buffer)
    requires ToLower(key) == key && ':' !in key && '\r' !in key
    requires '\r' !in value && |key| + |value| < 100 && (value != [] ==> value[0] != ' ' && value[0] != '\t')
    ensures WritableField(key, value)
  {
    hide ToLower;
    NoReturnNoCrlf(key + (":" + (" " + value)));
  }

  lemma RetryAfterWord()
    ensures ToLower("Retry-After") == "retry-after" && WritableField("retry-after", "1")
  {
    hide WritableField;
    assert ToLower("Retry-After") == "retry-after" == ToLower("retry-after");
    assert ':' !in "retry-after" && '\r' !in "retry-after" && '\r' !in "1";
    PlainField("retry-after", "1");
  }

  lemma ContentTypeWord()
    ensures ToLower("Content-Type") == "content-type"
    ensures WritableField("content-type", "text/html; charset=utf-8")
  {
    hide WritableField;
    assert ToLower("Content-Type") == "content-type" == ToLower("content-type");
    assert ':' !in "content-type" && '\r' !in "content-type";
    HtmlWord();
    PlainField("content-type", "text/html; charset=utf-8");
  }

  lemma HtmlWord()
    ensures '\r' !in "text/html; charset=utf-8" && |"text/html; charset=utf-8"| == 24
  {
  }

  // ------------------------------------------------------------- a whole output

  /** A client reads one reply after the other, and nothing is left. */
  ghost predicate ReadsReplies(server: Server, b: Buffer, replies: seq<Reply>)
    decreases |replies|
  {
    if replies == [] then b == []
    else
      exists rest ::
        && ReadsReply(b, Made(server, replies[0]), Closes(server, replies[0]), rest)
        && ReadsReplies(server, rest, replies[1..])
  }

  /** Every handler makes responses that can be sent and read back. */
  ghost predicate GoodRoutes(server: Server) {
    forall req :: Sendable(server.route(req)) && ReadsBack(server.route(req))
  }

  lemma AllGood(server: Server, reply: Reply)
    requires GoodRoutes(server)
    ensures Sendable(Made(server, reply)) && ReadsBack(Made(server, reply))
  {
    hide Sendable, ReadsBack;
    match reply
    case Answer(req) => assert Sendable(server.route(req));
    case TooManyRequests => TooManyIs(server);
    case BadRequest => BadRequestIs(server);
  }

  /** The replies from the n-th on, as bytes. */
  ghost function Wires(server: Server, n: nat, replies: seq<Reply>): Buffer
    requires Walks(server)
    decreases |replies|
  {
    if replies == [] then [] else WireOf(server, n, replies[0]) + Wires(server, n + 1, replies[1..])
  }

  lemma {:induction false} WiresSnoc(server: Server, n: nat, replies: seq<Reply>, reply: Reply)
    requires Walks(server)
    ensures Wires(server, n, replies + [reply]) == Wires(server, n, replies) + WireOf(server, n + |replies|, reply)
    decreases |replies|
  {
    hide Walks, WireOf;
    if replies == [] {
      assert (replies + [reply])[1..] == [];
    } else {
      assert (replies + [reply])[0] == replies[0] && (replies + [reply])[1..] == replies[1..] + [reply];
      WiresSnoc(server, n + 1, replies[1..], reply);
    }
  }

  lemma {:induction false} OutputIsWires(server: Server, replies: seq<Reply>)
    requires Walks(server)
    ensures Output(server, replies) == Wires(server, 0, replies)
    decreases |replies|
  {
    hide Walks, WireOf;
    if replies != [] {
      var n := |replies| - 1;
      assert replies == replies[..n] + [replies[n]];
      OutputIsWires(server, replies[..n]);
      WiresSnoc(server, 0, replies[..n], replies[n]);
    }
  }

  lemma {:induction false} WiresRead(server: Server, n: nat, replies: seq<Reply>)
    requires Walks(server) && GoodRoutes(server)
    ensures ReadsReplies(server, Wires(server, n, replies), replies)
    decreases |replies|
  {
    hide Walks, WireOf, ReadsReply, GoodRoutes, Sendable, Made, Closes;
    if replies != [] {
      AllGood(server, replies[0]);
      ReplyRead(server, n, replies[0], Wires(server, n + 1, replies[1..]));
      WiresRead(server, n + 1, replies[1..]);
    }
  }

  /** End to end, over every run: what was sent and what is queued is read by a
      client as exactly the replies, each with the status, the headers and the
      body that its handler made. */
  lemma ClientReadsReplies(server: Server, events: seq<Event>)
    requires Walks(server) && GoodRoutes(server) && Possible(server, NewSituation, events)
    ensures var l := After(server, NewSituation, events).link;
            ReadsReplies(server, l.sent + l.queued, l.replies)
  {
    hide Walks, GoodRoutes, Possible, After, Output, ReadsReplies, Wires;
    OutputConserved(server, NewSituation, events) by { NothingConserved(server); }
    var l := After(server, NewSituation, events).link;
    OutputIsWires(server, l.replies);
    WiresRead(server, 0, l.replies);
  }
}
