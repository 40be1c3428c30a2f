/** The encoder and the parser undo each other, and exactly when. */
module EncoderRoundTrip {
  import opened Bytes
  import opened Numerals
  import opened HttpHeaders
  import opened HttpRequest
  import opened HttpResponse
  import opened HttpResponseEncoder
  import opened Framer
  import opened HttpRequestParser
  import opened ParserLaws
  import opened ChunkSizes
  import opened MessageGrammar

  // --------------------------------------------------------------- chunk loop

  function ChunksOf(body: Buffer): seq<Chunk>
    decreases |body|
  {
    if body == [] then []
    else
      var n := Min(MAX_CHUNK_SIZE, |body|);
      [Chunk(Show(n, 16), body[..n])] + ChunksOf(body[n..])
  }

  lemma ShortNumeral(n: nat, base: nat)
    requires IsBase(base) && n <= MAX_CHUNK_SIZE
    ensures |Show(n, base)| <= 5 && LegalLine(Show(n, base))
  {
    assert Power(base, 5) == base * (base * (base * (base * (base * Power(base, 0)))));
    ShowLength(n, base, 5, Power(base, 5));
  }

  lemma SizeLineRead(n: nat)
    requires n <= MAX_CHUNK_SIZE
    ensures ChunkSizeOf(Show(n, 16)) == Some(n) && RfcSize(Show(n, 16)) == Some(n)
  {
    var s := Show(n, 16);
    assert ';' !in s && '\0' !in s;
    assert SizeField(s) == s && CString(s) == s;
    assert !HasHexPrefix(s);
    ChunkSizeIs(s);
    PlainField(s);
    FieldEnds(s, |s|);
    assert !BadlyExtended(s);
  }

  /** The sizes are those of section 7.1 of RFC 9112. */
  ghost predicate RfcSizes(cs: seq<Chunk>) {
    forall i :: 0 <= i < |cs| ==> RfcSize(cs[i].line) == Some(|cs[i].data|)
  }

  lemma {:induction false} ChunksOfLegal(body: Buffer)
    ensures LegalChunks(ChunksOf(body)) && RfcSizes(ChunksOf(body)) && Data(ChunksOf(body)) == body
    decreases |body|
  {
    if body != [] {
      var n := Min(MAX_CHUNK_SIZE, |body|);
      var head, tail := body[..n], body[n..];
      assert head + tail == body;
      ChunksOfLegal(tail);
      ShortNumeral(n, 16);
      SizeLineRead(n);
      hide ChunkSizeOf, RfcSize, LegalLine, Show;
      OneMoreChunk(Chunk(Show(n, 16), head), ChunksOf(tail));
    }
  }

  lemma OneMoreChunk(c: Chunk, cs: seq<Chunk>)
    requires LegalChunk(c) && RfcSize(c.line) == Some(|c.data|) && LegalChunks(cs) && RfcSizes(cs)
    ensures LegalChunks([c] + cs) && RfcSizes([c] + cs) && Data([c] + cs) == c.data + Data(cs)
  {
    hide LegalChunk, RfcSize;
    assert ([c] + cs)[1..] == cs;
  }

  lemma {:induction false} ChunkLoopIsChunks(body: Buffer)
    ensures ChunkLoop(body) == ChunksBytes(ChunksOf(body)) + "0\r\n\r\n"
    decreases |body|
  {
    hide Show, ChunkBytes, ChunkBlock;
    if body != [] {
      var n := Min(MAX_CHUNK_SIZE, |body|);
      var c, cs := Chunk(Show(n, 16), body[..n]), ChunksOf(body[n..]);
      ChunkLoopIsChunks(body[n..]);
      assert ChunksOf(body)[0] == c && ChunksOf(body)[1..] == cs;
      ChunkBlockIsChunk(body[..n]);
      assert ChunkBytes(c) + (ChunksBytes(cs) + "0\r\n\r\n") == (ChunkBytes(c) + ChunksBytes(cs)) + "0\r\n\r\n";
    }
  }

  lemma ChunkBlockIsChunk(piece: Buffer)
    ensures ChunkBlock(piece) == ChunkBytes(Chunk(Show(|piece|, 16), piece))
  {
    hide Show;
  }

  /** The chunk loop writes a legal chunked body with the data of the response. */
  lemma ChunkLoopLegal(body: Buffer) returns (x: Chunked)
    requires |body| <= MAX_HTTP_BODY_SIZE
    ensures ChunkLoop(body) == ChunkedBytes(x) && LegalChunked(x, 0) && Data(x.chunks) == body
    ensures RfcSizes(x.chunks) && RfcSize(x.last) == Some(0)
  {
    hide ChunkSizeOf, RfcSize, LegalLine, LegalChunk, LinesBytes, ChunksBytes, Show, ChunksOf, ChunkLoop;
    ChunksOfLegal(body);
    ChunkLoopIsChunks(body);
    LastChunk();
    x := Chunked(ChunksOf(body), "0", []);
  }

  lemma LastChunk()
    ensures LegalLine("0") && ChunkSizeOf("0") == Some(0) && RfcSize("0") == Some(0)
    ensures ("0" + CRLF) + LinesBytes([]) == "0\r\n\r\n"
  {
    hide ChunkSizeOf, RfcSize, LegalLine;
    ShortNumeral(0, 16);
    SizeLineRead(0);
    assert Show(0, 16) == "0";
  }

  /** Chunked round trip: what the chunk loop writes for a body of at most 10 MB
      the chunk states read back as exactly that body, whatever follows. */
  lemma ChunkedRoundTrip(m: Machine, body: Buffer, suffix: Buffer)
    requires m.state == ChunkSize && m.req.body == [] && |body| <= MAX_HTTP_BODY_SIZE
    requires m.buf == ChunkLoop(body) + suffix
    ensures Delivers(m, m.req.(body := body), suffix)
  {
    hide LegalChunked, ChunkedBytes, ChunkLoop, Run;
    var x := ChunkLoopLegal(body);
    ChunkedRead(m, x, suffix);
    assert [] + Data(x.chunks) == body;
  }

  // ------------------------------------------------------------- header block

  /** Headers that can be written as lines: what a handler must respect. */
  ghost predicate Writable(headers: HeaderMap) {
    forall k :: k in headers ==> WritableField(k, headers[k])
  }

  ghost predicate WritableField(key: Buffer, value: Buffer) {
    && ToLower(key) == key && ':' !in key
    && LegalLine(key + (":" + (" " + value)))
    && (value != [] ==> value[0] != ' ' && value[0] != '\t')
  }

  function FieldsOf(order: seq<Buffer>, headers: HeaderMap): seq<Field>
    requires forall k :: k in order ==> k in headers
  {
    seq(|order|, i requires 0 <= i < |order| =>
      assert order[i] in order; Field(order[i], " ", headers[order[i]]))
  }

  lemma {:induction false} HeaderBlockIsLines(order: seq<Buffer>, headers: HeaderMap)
    requires forall k :: k in order ==> k in headers
    ensures HeaderBlock(order, headers) == LinesBytes(FieldLines(FieldsOf(order, headers)))
  {
    if order == [] {
      assert FieldLines(FieldsOf(order, headers)) == [];
    } else {
      var fs := FieldsOf(order[1..], headers);
      var f := Field(order[0], " ", headers[order[0]]);
      HeaderBlockIsLines(order[1..], headers);
      FieldsOfStep(order, headers);
      assert FieldLines(FieldsOf(order, headers)) == [FieldLine(f)] + FieldLines(fs);
      assert HeaderLine(order[0], headers[order[0]]) == FieldLine(f) + CRLF;
    }
  }

  lemma FieldsOfLegal(order: seq<Buffer>, headers: HeaderMap)
    requires Writable(headers) && forall k :: k in order ==> k in headers
    ensures LegalFields(FieldsOf(order, headers))
  {
    hide LegalLine;
    var fs := FieldsOf(order, headers);
    forall i | 0 <= i < |fs|
      ensures LegalField(fs[i])
    {
      assert order[i] in order && WritableField(order[i], headers[order[i]]);
    }
  }

  function Entries(order: seq<Buffer>, headers: HeaderMap): HeaderMap
    requires forall k :: k in order ==> k in headers
  {
    map k | k in order :: headers[k]
  }

  lemma EntriesSplit(order: seq<Buffer>, headers: HeaderMap, start: HeaderMap)
    requires order != [] && forall k :: k in order ==> k in headers
    ensures start[order[0] := headers[order[0]]] + Entries(order[1..], headers) == start + Entries(order, headers)
  {
    assert order == [order[0]] + order[1..];
  }

  lemma FieldsOfStep(order: seq<Buffer>, headers: HeaderMap)
    requires order != [] && forall k :: k in order ==> k in headers
    ensures FieldsOf(order, headers) == [Field(order[0], " ", headers[order[0]])] + FieldsOf(order[1..], headers)
  {
  }

  /** Reading fields back fills the map with them, in whatever order they come. */
  lemma {:induction false} HeadersOfFields(order: seq<Buffer>, headers: HeaderMap, start: HeaderMap)
    requires Lowered(headers) && forall k :: k in order ==> k in headers
    ensures HeadersOf(FieldsOf(order, headers), start) == start + Entries(order, headers)
  {
    hide ToLower, Entries, FieldsOf;
    if order == [] {
      NoFields(headers, start);
    } else {
      var value := headers[order[0]];
      assert order[0] in order;
      FieldsOfStep(order, headers);
      var fs := FieldsOf(order[1..], headers);
      assert ([Field(order[0], " ", value)] + fs)[1..] == fs;
      HeadersOfFields(order[1..], headers, start[order[0] := value]);
      EntriesSplit(order, headers, start);
    }
  }

  lemma NoFields(headers: HeaderMap, start: HeaderMap)
    ensures HeadersOf(FieldsOf([], headers), start) == start + Entries([], headers)
  {
    assert FieldsOf([], headers) == [];
  }

  /** The header block, whatever the order of the map was, is read back as the
      same map. */
  lemma HeaderBlockRead(m: Machine, order: seq<Buffer>, headers: HeaderMap, rest: Buffer)
    requires m.state == Headers && m.req == EmptyRequest
    requires Writable(headers) && IsOrder(order, headers)
    requires m.buf == HeaderBlock(order, headers) + rest
    ensures Run(m) == Run(Machine(Framing(headers), m.remaining, EmptyRequest.(headers := headers), rest))
  {
    hide LegalFields, Writable, Framing, Run, LinesBytes, FieldLines, FieldsOf;
    HeaderBlockIsLines(order, headers);
    FieldsOfLegal(order, headers);
    WritableLowered(headers);
    HeadersOfFields(order, headers, map[]);
    assert map[] + Entries(order, headers) == headers;
    HeadersRead(m, FieldsOf(order, headers), rest);
  }

  // ------------------------------------------------------------ whole message

  predicate SaysChunked(headers: HeaderMap) {
    var te := Lookup(headers, "Transfer-Encoding");
    te.Some? && Contains(te.value, "chunked")
  }

  lemma FramingKeys()
    ensures ToLower("Transfer-Encoding") == "transfer-encoding" != "Transfer-Encoding"
    ensures ToLower("Content-Length") == "content-length" != "Content-Length"
    ensures ToLower("content-length") == "content-length" != "transfer-encoding"
    ensures Contains("chunked", "chunked")
  {
    assert "Transfer-Encoding"[0] == 'T' && "Content-Length"[0] == 'C';
    assert "content-length"[0] == 'c' && "transfer-encoding"[0] == 't';
    assert ToLower("Transfer-Encoding") == "transfer-encoding";
    assert ToLower("Content-Length") == "content-length";
    assert ToLower("content-length") == "content-length";
    assert OccursAt("chunked", "chunked", 0);
  }

  /** Neither `del` of the encoder has an effect: the keys are stored lowered
      and erased as they are written. */
  lemma DeletionsDoNothing(headers: HeaderMap)
    requires Lowered(headers)
    ensures Deleted(headers, "Content-Length") == headers
    ensures Deleted(headers, "Transfer-Encoding") == headers
  {
    FramingKeys();
    assert "Content-Length" !in headers && "Transfer-Encoding" !in headers;
  }

  lemma WritableLowered(headers: HeaderMap)
    requires Writable(headers)
    ensures Lowered(headers)
  {
    forall k | k in headers
      ensures ToLower(k) == k
    {
      assert WritableField(k, headers[k]);
    }
  }

  /** What the encoder makes of the headers. */
  lemma FramedHeaders(r: Response)
    requires Lowered(r.headers)
    ensures WithFraming(r).headers ==
            if |r.body| > MAX_CHUNK_SIZE then r.headers["transfer-encoding" := "chunked"]
            else r.headers["content-length" := Show(|r.body|, 10)]
    ensures WithFraming(r).body == r.body
  {
    DeletionsDoNothing(r.headers);
    FramingKeys();
    assert Show(0, 10) == "0";
  }

  /** The encoder never sends both framing headers, except exactly when the
      handler had set the one that the encoder means to delete: then both are
      on the wire. */
  lemma ConflictExactly(r: Response)
    requires Lowered(r.headers)
    ensures var h := WithFraming(r).headers;
            Lookup(h, "Content-Length").Some? && Lookup(h, "Transfer-Encoding").Some? <==>
            if |r.body| > MAX_CHUNK_SIZE then Lookup(r.headers, "Content-Length").Some?
            else Lookup(r.headers, "Transfer-Encoding").Some?
  {
    FramedHeaders(r);
    FramingKeys();
  }

  lemma FramedWritable(r: Response)
    requires Writable(r.headers)
    ensures Writable(WithFraming(r).headers)
  {
    hide LegalLine, Contains;
    WritableLowered(r.headers);
    FramedHeaders(r);
    FramingKeys();
    var h := WithFraming(r).headers;
    forall k | k in h
      ensures WritableField(k, h[k])
    {
      if k == "transfer-encoding" && |r.body| > MAX_CHUNK_SIZE {
        TransferEncodingWritable();
      } else if k == "content-length" && |r.body| <= MAX_CHUNK_SIZE {
        ContentLengthWritable(|r.body|);
      } else {
        assert k in r.headers && h[k] == r.headers[k];
      }
    }
  }

  lemma TransferEncodingWritable()
    ensures WritableField("transfer-encoding", "chunked")
  {
    FramingKeys();
    ToLowerTwice("Transfer-Encoding");
    var line := "transfer-encoding" + (":" + (" " + "chunked"));
    assert |line| == 26;
    assert line == "transfer-encoding: chunked";
    assert '\r' !in "transfer-encoding: chunked";
    NoReturnNoCrlf(line);
  }

  lemma NoReturnNoCrlf(line: Buffer)
    requires '\r' !in line
    ensures NoCrlf(line)
  {
  }

  lemma ContentLengthWritable(n: nat)
    requires n <= MAX_CHUNK_SIZE
    ensures WritableField("content-length", Show(n, 10))
  {
    hide Show, Contains;
    FramingKeys();
    ShortNumeral(n, 10);
    var pre := "content-length: ";
    var line := "content-length" + (":" + (" " + Show(n, 10)));
    assert line == pre + Show(n, 10);
    assert '\r' !in pre && '\r' !in Show(n, 10);
    NoReturnNoCrlf(line);
    assert ':' !in "content-length";
  }

  /** The framing that the parser derives from the encoder's headers. */
  lemma FramedFraming(r: Response)
    requires Lowered(r.headers)
    ensures Framing(WithFraming(r).headers) ==
            if |r.body| > MAX_CHUNK_SIZE || SaysChunked(r.headers) then ChunkSize
            else if |r.body| > 0 then Body else Complete
    ensures |r.body| <= MAX_CHUNK_SIZE ==> ContentLengthOf(WithFraming(r).headers) == |r.body|
  {
    hide Contains, StoullOrZero;
    FramedHeaders(r);
    FramingKeys();
    if |r.body| <= MAX_CHUNK_SIZE {
      StoullOfShow(|r.body|);
    }
  }

  /** A chunked body is longer than its data. */
  lemma ChunkedIsLonger(x: Chunked)
    ensures |ChunkedBytes(x)| > |Data(x.chunks)|
  {
    ChunksAreLonger(x.chunks);
    assert |LinesBytes(x.trailers)| >= 2;
  }

  lemma {:induction false} ChunksAreLonger(cs: seq<Chunk>)
    ensures |ChunksBytes(cs)| >= |Data(cs)|
  {
    if cs != [] {
      ChunksAreLonger(cs[1..]);
    }
  }

  /** Bytes that are sent as they are and read as chunks are never read back as
      themselves. */
  lemma PlainReadAsChunks(m: Machine, body: Buffer, suffix: Buffer)
    requires m.state == ChunkSize && m.req.body == [] && m.buf == body + suffix
    ensures !Delivers(m, m.req.(body := body), suffix)
  {
    hide Run, ChunkedBytes, LegalChunked;
    if Delivers(m, m.req.(body := body), suffix) {
      var x := ChunkedParse(m);
      ChunkedRead(m, x, Run(m).1.buf);
      assert [] + Data(x.chunks) == body;
      assert |m.buf| == |ChunkedBytes(x)| + |suffix|;
      ChunkedIsLonger(x);
      assert false;
    }
  }

  /** What must be true of a response for the parser to read its message back,
      in terms of what the handler left in it. */
  predicate ReadsBack(r: Response) {
    if |r.body| > MAX_CHUNK_SIZE then true
    else if |r.body| > 0 then !SaysChunked(r.headers)
    else SaysChunked(r.headers) <==> r.bodyType == CHUNKED
  }

  lemma BodyPartRead(m: Machine, r: Response, suffix: Buffer)
    requires Lowered(r.headers) && |r.body| <= MAX_HTTP_BODY_SIZE
    requires m.req == EmptyRequest.(headers := WithFraming(r).headers)
    requires m.state == Framing(m.req.headers) && m.buf == BodyPart(WithFraming(r)) + suffix
    ensures Delivers(m, m.req.(body := r.body), suffix) <==> ReadsBack(r)
  {
    hide Run, ChunkLoop, ContentLengthOf, Framing, AnnouncesChunks, SaysChunked;
    FramedFraming(r);
    FramingIs(m.req.headers);
    var f := WithFraming(r);
    if m.state == ChunkSize {
      if f.bodyType == CHUNKED {
        ChunkedRoundTrip(m, r.body, suffix);
      } else {
        PlainReadAsChunks(m, r.body, suffix);
      }
    } else if m.state == Body {
      PayloadRead(m, Sized(r.body), suffix);
    } else {
      assert Run(m) == (Parsed, m) by { CompleteRuns(m); }
      if f.bodyType == CHUNKED {
        ChunkLoopEmpty();
        assert |m.buf| > |suffix|;
      } else {
        assert [] + suffix == suffix;
      }
    }
  }

  lemma ChunkLoopEmpty()
    ensures |ChunkLoop([])| == 5
  {
  }

  lemma CompleteRuns(m: Machine)
    requires m.state == Complete
    ensures Run(m) == (Parsed, m)
  {
  }

  /** Whole messages: what `encode` writes after the status line, read from the
      state that follows a start line, gives back the headers, whatever order
      the map was walked in, the body, and exactly the bytes that followed, if
      and only if the handler's own framing headers and body type allow it. In
      particular it does for every response without a framing header and with
      a fresh body type. */
  lemma MessageRoundTripExactly(m: Machine, r: Response, order: seq<Buffer>, suffix: Buffer)
    requires Writable(r.headers) && |r.body| <= MAX_HTTP_BODY_SIZE
    requires IsOrder(order, WithFraming(r).headers)
    requires m.state == Headers && m.req == EmptyRequest
    requires m.buf == Tail(WithFraming(r), order, false) + suffix
    ensures Delivers(m, EmptyRequest.(headers := WithFraming(r).headers, body := r.body), suffix) <==> ReadsBack(r)
  {
    hide Run, ChunkLoop, Framing, SaysChunked, HeaderBlock, Writable, BodyPart;
    var f := WithFraming(r);
    FramedWritable(r);
    WritableLowered(r.headers);
    assert m.buf == HeaderBlock(order, f.headers) + (BodyPart(f) + suffix);
    HeaderBlockRead(m, order, f.headers, BodyPart(f) + suffix);
    BodyPartRead(Machine(Framing(f.headers), m.remaining, EmptyRequest.(headers := f.headers), BodyPart(f) + suffix),
                 r, suffix);
  }

  /** A response for which it fails, whatever follows: a small body whose
      handler set `Transfer-Encoding: chunked`. */
  lemma RoundTripFails(m: Machine, order: seq<Buffer>, suffix: Buffer)
    requires var r := DefaultResponse.(body := "hi", headers := map["transfer-encoding" := "chunked"]);
             && IsOrder(order, WithFraming(r).headers)
             && m.state == Headers && m.req == EmptyRequest
             && m.buf == Tail(WithFraming(r), order, false) + suffix
    ensures var r := DefaultResponse.(body := "hi", headers := map["transfer-encoding" := "chunked"]);
            !Delivers(m, EmptyRequest.(headers := WithFraming(r).headers, body := r.body), suffix)
  {
    hide Run, IsOrder, Tail, WithFraming, LegalLine, Contains;
    FramingKeys();
    TransferEncodingWritable();
    var r := DefaultResponse.(body := "hi", headers := map["transfer-encoding" := "chunked"]);
    assert Writable(r.headers);
    assert !ReadsBack(r);
    MessageRoundTripExactly(m, r, order, suffix);
  }
}
