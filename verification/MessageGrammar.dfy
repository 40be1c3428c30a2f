/** Requests as a grammar, and the parser as its exact recogniser.

    The grammar says nothing about states, buffers or turns: it writes out the
    bytes of a message (section 2.1 and section 7.1 of RFC 9112), and the
    theorems say that `parse` delivers a request if and only if the buffer
    begins with a legal message, and then delivers what that message means. */
module MessageGrammar {
  import opened Bytes
  import opened Numerals
  import opened HttpHeaders
  import opened HttpRequest
  import opened Framer
  import opened HttpRequestParser
  import opened ParserLaws

  // ----------------------------------------------------------- chunked bodies

  datatype Chunk = Chunk(line: Buffer, data: Buffer)

  /** Chunks, the line of the last chunk, and the trailer lines. */
  datatype Chunked = Chunked(chunks: seq<Chunk>, last: Buffer, trailers: seq<Buffer>)

  function ChunkBytes(c: Chunk): Buffer {
    (c.line + CRLF) + (c.data + CRLF)
  }

  function ChunksBytes(cs: seq<Chunk>): Buffer {
    if cs == [] then [] else ChunkBytes(cs[0]) + ChunksBytes(cs[1..])
  }

  /** Lines, and the empty line that ends them. */
  function LinesBytes(ls: seq<Buffer>): Buffer {
    if ls == [] then CRLF else (ls[0] + CRLF) + LinesBytes(ls[1..])
  }

  function ChunkedBytes(x: Chunked): Buffer {
    ChunksBytes(x.chunks) + ((x.last + CRLF) + LinesBytes(x.trailers))
  }

  function Data(cs: seq<Chunk>): Buffer {
    if cs == [] then [] else cs[0].data + Data(cs[1..])
  }

  ghost predicate LegalLine(l: Buffer) {
    NoCrlf(l) && |l| <= MAX_CHUNK_BODY_SIZE
  }

  ghost predicate LegalChunk(c: Chunk) {
    LegalLine(c.line) && c.data != [] && ChunkSizeOf(c.line) == Some(|c.data|)
  }

  ghost predicate LegalChunks(cs: seq<Chunk>) {
    forall i :: 0 <= i < |cs| ==> LegalChunk(cs[i])
  }

  /** Lines that are not empty. */
  ghost predicate LegalLines(ls: seq<Buffer>) {
    forall i :: 0 <= i < |ls| ==> LegalLine(ls[i]) && ls[i] != []
  }

  /** A legal chunked body, of which `have` bytes count already. */
  ghost predicate LegalChunked(x: Chunked, have: nat) {
    && LegalChunks(x.chunks)
    && have + |Data(x.chunks)| <= MAX_HTTP_BODY_SIZE
    && LegalLine(x.last) && ChunkSizeOf(x.last) == Some(0)
    && LegalLines(x.trailers)
  }

  /** `parse` delivers the request `req` and leaves `rest`. */
  ghost predicate Delivers(m: Machine, req: Request, rest: Buffer) {
    var r := Run(m);
    r.0 == Parsed && r.1.req == req && r.1.buf == rest
  }

  lemma TakeLineStep(m: Machine, line: Buffer, rest: Buffer)
    requires WantsLine(m.state) && LegalLine(line)
    requires m.buf == line + CRLF + rest
    ensures Step(m) == Go(OnLine(m.(buf := rest), line))
    ensures Run(m) == Run(OnLine(m.(buf := rest), line))
  {
    hide LineFrame, OnLine, Run;
    LineFrameOfLine(line, rest);
    RunStep(m, OnLine(m.(buf := rest), line));
  }

  /** A chunk is read in three turns. */
  lemma ChunkRead(m: Machine, c: Chunk, rest: Buffer)
    requires m.state == ChunkSize && LegalChunk(c)
    requires |m.req.body| + |c.data| <= MAX_HTTP_BODY_SIZE
    requires m.buf == ChunkBytes(c) + rest
    ensures Run(m) == Run(m.(remaining := |c.data|, req := m.req.(body := m.req.body + c.data), buf := rest))
  {
    hide Run, ChunkSizeOf, LineFrame, NoCrlf, Step;
    assert m.buf == c.line + CRLF + (c.data + (CRLF + rest));
    TakeLineStep(m, c.line, c.data + (CRLF + rest));
    var n := m.(state := ChunkData, remaining := |c.data|, buf := c.data + (CRLF + rest));
    DataRead(n, c.data, CRLF + rest);
    var o := n.(state := ChunkCrlf, req := m.req.(body := m.req.body + c.data), buf := CRLF + rest);
    assert [] + CRLF + rest == CRLF + rest;
    EmptyIsLegal();
    TakeLineStep(o, [], rest);
  }

  lemma DataRead(m: Machine, data: Buffer, rest: Buffer)
    requires m.state == ChunkData && m.remaining == |data| <= MAX_HTTP_BODY_SIZE && m.buf == data + rest
    ensures Run(m) == Run(m.(state := ChunkCrlf, req := m.req.(body := m.req.body + data), buf := rest))
  {
    hide Run, BytesFrame;
    BytesFrameOf(data, rest);
    RunStep(m, m.(state := ChunkCrlf, req := m.req.(body := m.req.body + data), buf := rest));
  }

  lemma EmptyIsLegal()
    ensures LegalLine([])
  {
  }

  lemma {:induction false} TrailersRead(m: Machine, ls: seq<Buffer>, rest: Buffer)
    requires m.state == Trailers && LegalLines(ls) && m.buf == LinesBytes(ls) + rest
    ensures Delivers(m, m.req, rest)
    decreases |ls|
  {
    hide LegalLine, NoCrlf, LineFrame, Step;
    if ls == [] {
      EmptyIsLegal();
      assert m.buf == [] + CRLF + rest;
      TakeLineStep(m, [], rest);
    } else {
      var n := m.(buf := LinesBytes(ls[1..]) + rest);
      assert m.buf == ls[0] + CRLF + n.buf;
      TakeLineStep(m, ls[0], n.buf);
      TrailersRead(n, ls[1..], rest);
    }
  }

  lemma {:induction false} ChunkedRead(m: Machine, x: Chunked, rest: Buffer)
    requires m.state == ChunkSize && LegalChunked(x, |m.req.body|) && m.buf == ChunkedBytes(x) + rest
    ensures Delivers(m, m.req.(body := m.req.body + Data(x.chunks)), rest)
    decreases |x.chunks|
  {
    hide LegalLine, NoCrlf, ChunkSizeOf, LineFrame, Step, Run;
    if x.chunks == [] {
      var n := m.(state := Trailers, buf := LinesBytes(x.trailers) + rest);
      assert m.buf == x.last + CRLF + n.buf;
      TakeLineStep(m, x.last, n.buf);
      TrailersRead(n, x.trailers, rest);
      assert m.req.body + Data(x.chunks) == m.req.body;
    } else {
      var c, y := x.chunks[0], x.(chunks := x.chunks[1..]);
      var body := m.req.body + c.data;
      var n := m.(remaining := |c.data|, req := m.req.(body := body), buf := ChunkedBytes(y) + rest);
      assert m.buf == ChunkBytes(c) + n.buf;
      ChunkRead(m, c, n.buf);
      ChunkedRead(n, y, rest);
      assert body + Data(y.chunks) == m.req.body + Data(x.chunks);
    }
  }

  lemma LineTaken(m: Machine)
    requires WantsLine(m.state) && Run(m).0 == Parsed
    ensures LineFrame(m.buf).status == Success
    ensures var f := LineFrame(m.buf);
            && LegalLine(f.out) && m.buf == f.out + CRLF + f.rest && |f.rest| < |m.buf|
            && Run(m) == Run(OnLine(m.(buf := f.rest), f.out))
  {
    hide LineFrame, OnLine;
  }

  lemma {:induction false} TrailersParse(m: Machine) returns (ls: seq<Buffer>)
    requires m.state == Trailers && Run(m).0 == Parsed
    ensures LegalLines(ls) && m.buf == LinesBytes(ls) + Run(m).1.buf
    decreases |m.buf|
  {
    hide LineFrame, LegalLine;
    LineTaken(m);
    var f := LineFrame(m.buf);
    if f.out == [] {
      ls := [];
    } else {
      var ts := TrailersParse(m.(buf := f.rest));
      ls := [f.out] + ts;
      assert ls[1..] == ts;
    }
  }

  lemma {:induction false} ChunkedParse(m: Machine) returns (x: Chunked)
    requires m.state == ChunkSize && Run(m).0 == Parsed
    ensures LegalChunked(x, |m.req.body|) && m.buf == ChunkedBytes(x) + Run(m).1.buf
    decreases |m.buf|
  {
    hide LineFrame, BytesFrame, LegalLine, ChunkSizeOf, Run;
    LineTaken(m);
    var f := LineFrame(m.buf);
    var n := OnLine(m.(buf := f.rest), f.out);
    assert n.state != Error by { ErrorIsBad(n); }
    if n.state == Trailers {
      var ls := TrailersParse(n);
      x := Chunked([], f.out, ls);
    } else {
      var o, c := ChunkParse(n, f.out);
      var y := ChunkedParse(o);
      x := y.(chunks := [c] + y.chunks);
      assert x.chunks[1..] == y.chunks;
      assert m.buf == ChunkBytes(c) + o.buf;
    }
  }

  lemma ErrorIsBad(m: Machine)
    ensures m.state == Error ==> Run(m) == (Bad, m)
  {
  }

  lemma DataTaken(n: Machine) returns (f: Frame, o: Machine)
    requires n.state == ChunkData && Run(n).0 == Parsed
    ensures f.status == Success && n.buf == f.out + f.rest && |f.out| == n.remaining
    ensures o == n.(state := ChunkCrlf, req := n.req.(body := n.req.body + f.out), buf := f.rest)
    ensures Run(n) == Run(o)
  {
    hide BytesFrame;
    f := BytesFrame(n.buf, n.remaining);
    o := n.(state := ChunkCrlf, req := n.req.(body := n.req.body + f.out), buf := f.rest);
  }

  lemma ChunkParse(n: Machine, line: Buffer) returns (o: Machine, c: Chunk)
    requires n.state == ChunkData && n.remaining > 0 && Run(n).0 == Parsed
    requires LegalLine(line) && ChunkSizeOf(line) == Some(n.remaining)
    ensures o.state == ChunkSize && Run(n) == Run(o) && |o.buf| <= |n.buf|
    ensures LegalChunk(c) && c.line == line
    ensures o.req == n.req.(body := n.req.body + c.data)
    ensures n.buf == c.data + CRLF + o.buf
  {
    hide LineFrame, BytesFrame, ChunkSizeOf, LegalLine, Step, Run;
    var f, n' := DataTaken(n);
    LineTaken(n');
    var g := LineFrame(n'.buf);
    o := OnLine(n'.(buf := g.rest), g.out);
    ErrorIsBad(o);
    c := Chunk(line, f.out);
    assert n.buf == f.out + (CRLF + g.rest);
  }

  /** The chunk states accept exactly the chunked bodies of the grammar whose
      data is at most 10 MB in all; the body is the concatenation of the chunks'
      data in order, and what follows the body stays in the buffer. */
  lemma ChunkedExactly(m: Machine)
    requires m.state == ChunkSize
    ensures Run(m).0 == Parsed <==>
            exists x, rest :: LegalChunked(x, |m.req.body|) && m.buf == ChunkedBytes(x) + rest
    ensures forall x, rest :: LegalChunked(x, |m.req.body|) && m.buf == ChunkedBytes(x) + rest ==>
              Delivers(m, m.req.(body := m.req.body + Data(x.chunks)), rest)
  {
    hide Run, LegalChunked, ChunkedBytes;
    forall x, rest | LegalChunked(x, |m.req.body|) && m.buf == ChunkedBytes(x) + rest
      ensures Delivers(m, m.req.(body := m.req.body + Data(x.chunks)), rest)
    {
      ChunkedRead(m, x, rest);
    }
    if Run(m).0 == Parsed {
      var x := ChunkedParse(m);
    }
  }

  // ----------------------------------------------------------- whole messages

  /** `field-name ":" OWS field-value`. */
  datatype Field = Field(name: Buffer, ows: Buffer, value: Buffer)

  datatype Payload = NoBody | Sized(data: Buffer) | InChunks(body: Chunked)

  datatype Message = Message(verb: HttpMethod, path: Buffer, version: Buffer, fields: seq<Field>, payload: Payload)

  /** The token of a method, section 9.1 of RFC 9110; UNKNOWN has none. */
  function Name(verb: HttpMethod): Buffer {
    match verb
    case GET => "GET"
    case POST => "POST"
    case PUT => "PUT"
    case DELETE => "DELETE"
    case HEAD => "HEAD"
    case OPTIONS => "OPTIONS"
    case UNKNOWN => ""
  }

  function FieldLine(f: Field): Buffer {
    f.name + (":" + (f.ows + f.value))
  }

  function FieldLines(fs: seq<Field>): seq<Buffer> {
    seq(|fs|, i requires 0 <= i < |fs| => FieldLine(fs[i]))
  }

  /** `method SP request-target SP HTTP-version` */
  function StartOf(verb: HttpMethod, path: Buffer, version: Buffer): Buffer {
    Name(verb) + (" " + (path + (" " + version)))
  }

  function StartLine(x: Message): Buffer {
    StartOf(x.verb, x.path, x.version)
  }

  function PayloadBytes(p: Payload): Buffer {
    match p
    case NoBody => []
    case Sized(data) => data
    case InChunks(x) => ChunkedBytes(x)
  }

  function MessageBytes(x: Message): Buffer {
    (StartLine(x) + CRLF) + (LinesBytes(FieldLines(x.fields)) + PayloadBytes(x.payload))
  }

  /** Fields in order; a later one of the same name replaces an earlier one. */
  function HeadersOf(fs: seq<Field>, headers: HeaderMap): HeaderMap {
    if fs == [] then headers else HeadersOf(fs[1..], Stored(headers, fs[0].name, fs[0].value))
  }

  function PayloadData(p: Payload): Buffer {
    match p
    case NoBody => []
    case Sized(data) => data
    case InChunks(x) => Data(x.chunks)
  }

  ghost predicate LegalField(f: Field) {
    && LegalLine(FieldLine(f))
    && ':' !in f.name
    && (forall i :: 0 <= i < |f.ows| ==> f.ows[i] == ' ' || f.ows[i] == '\t')
    && (f.value != [] ==> f.value[0] != ' ' && f.value[0] != '\t')
  }

  ghost predicate LegalFields(fs: seq<Field>) {
    forall i :: 0 <= i < |fs| ==> LegalField(fs[i])
  }

  /** The word `chunked` occurs in the transfer coding. */
  ghost predicate AnnouncesChunks(headers: HeaderMap) {
    "transfer-encoding" in headers &&
    exists i :: 0 <= i <= |headers["transfer-encoding"]| && OccursAt(headers["transfer-encoding"], "chunked", i)
  }

  /** The payload is framed as the headers say: in chunks, whatever the length
      says; otherwise by a length that is not 0. */
  ghost predicate LegalPayload(p: Payload, headers: HeaderMap) {
    if AnnouncesChunks(headers) then p.InChunks? && LegalChunked(p.body, 0)
    else if ContentLengthOf(headers) > 0 then
      p.Sized? && |p.data| == ContentLengthOf(headers) <= MAX_HTTP_BODY_SIZE
    else p == NoBody
  }

  lemma FramingIs(headers: HeaderMap)
    ensures Framing(headers) ==
            if AnnouncesChunks(headers) then ChunkSize else if ContentLengthOf(headers) > 0 then Body else Complete
  {
    hide ContentLengthOf;
    assert ToLower("Transfer-Encoding") == "transfer-encoding";
  }

  ghost predicate LegalMessage(x: Message) {
    && x.verb != UNKNOWN && x.path != [] && ' ' !in x.path && LegalLine(StartLine(x))
    && LegalFields(x.fields)
    && LegalPayload(x.payload, HeadersOf(x.fields, map[]))
  }

  /** What a message means. */
  function Meaning(x: Message): Request {
    Request(x.verb, x.path, x.version, HeadersOf(x.fields, map[]), PayloadData(x.payload))
  }

  lemma {:induction false} FindIn(pre: Buffer, c: Byte, post: Buffer)
    requires c !in pre
    ensures Find(pre + ([c] + post), c) == |pre|
    ensures (pre + ([c] + post))[..|pre|] == pre && (pre + ([c] + post))[|pre| + 1..] == post
  {
    if pre != [] {
      FindIn(pre[1..], c, post);
      assert (pre + ([c] + post))[1..] == pre[1..] + ([c] + post);
    }
  }

  lemma {:induction false} TrimLeftOf(ows: Buffer, value: Buffer)
    requires forall i :: 0 <= i < |ows| ==> ows[i] == ' ' || ows[i] == '\t'
    requires value != [] ==> value[0] != ' ' && value[0] != '\t'
    ensures TrimLeft(ows + value) == value
  {
    if ows == [] {
      assert ows + value == value;
    } else {
      assert (ows + value)[1..] == ows[1..] + value;
      TrimLeftOf(ows[1..], value);
    }
  }

  lemma {:induction false} TrimLeftParts(s: Buffer) returns (ows: Buffer)
    ensures s == ows + TrimLeft(s)
    ensures forall i :: 0 <= i < |ows| ==> ows[i] == ' ' || ows[i] == '\t'
  {
    if s != [] && (s[0] == ' ' || s[0] == '\t') {
      var rest := TrimLeftParts(s[1..]);
      ows := [s[0]] + rest;
      assert s == [s[0]] + s[1..];
    } else {
      ows := [];
    }
  }

  /** The code reads a header line as the field that it is. */
  lemma FieldRead(f: Field, req: Request)
    requires LegalField(f)
    ensures HeaderLineOk(FieldLine(f)) && FieldLine(f) != []
    ensures HeaderLineOf(FieldLine(f), req) == req.(headers := Stored(req.headers, f.name, f.value))
  {
    hide LegalLine;
    FindIn(f.name, ':', f.ows + f.value);
    assert FieldLine(f)[|f.name|] == ':';
    TrimLeftOf(f.ows, f.value);
  }

  lemma FieldParse(line: Buffer) returns (f: Field)
    requires LegalLine(line) && HeaderLineOk(line)
    ensures LegalField(f) && FieldLine(f) == line
  {
    hide LegalLine;
    var colon := Find(line, ':');
    var ows := TrimLeftParts(line[colon + 1..]);
    f := Field(line[..colon], ows, TrimLeft(line[colon + 1..]));
    assert line == line[..colon] + ([line[colon]] + line[colon + 1..]);
  }

  /** The code knows exactly the six tokens. */
  lemma MethodExactly(token: Buffer, verb: HttpMethod)
    requires verb != UNKNOWN
    ensures StringToMethod(token) == verb <==> token == Name(verb)
  {
  }

  lemma NameHasNoSpace(verb: HttpMethod)
    ensures ' ' !in Name(verb)
  {
  }

  lemma StartRead(verb: HttpMethod, path: Buffer, version: Buffer, req: Request)
    requires verb != UNKNOWN && path != [] && ' ' !in path
    ensures RequestLineOk(StartOf(verb, path, version))
    ensures RequestLineOf(StartOf(verb, path, version), req) ==
            req.(verb := verb, path := path, version := version)
  {
    MethodExactly(Name(verb), verb);
    NameHasNoSpace(verb);
    hide StringToMethod, Name;
    FindIn(Name(verb), ' ', path + (" " + version));
    FindIn(path, ' ', version);
  }

  lemma StartParse(line: Buffer) returns (verb: HttpMethod, path: Buffer, version: Buffer)
    requires RequestLineOk(line)
    ensures line == StartOf(verb, path, version)
    ensures verb != UNKNOWN && path != [] && ' ' !in path
  {
    hide StringToMethod, Name;
    var first := Find(line, ' ');
    var tail := line[first + 1..];
    var second := Find(tail, ' ');
    verb, path, version := StringToMethod(line[..first]), tail[..second], tail[second + 1..];
    MethodExactly(line[..first], verb);
    assert tail == path + ([tail[second]] + version);
    assert line == Name(verb) + ([line[first]] + tail);
  }

  /** Start lines, exactly: a line is accepted if and only if it is the token of
      one of the six methods, a path without spaces and a version, and then these
      are what is stored. */
  lemma StartExactly(line: Buffer, req: Request)
    ensures RequestLineOk(line) <==>
            exists verb, path, version ::
              verb != UNKNOWN && path != [] && ' ' !in path && line == StartOf(verb, path, version)
    ensures forall verb, path, version ::
              verb != UNKNOWN && path != [] && ' ' !in path && line == StartOf(verb, path, version) ==>
                RequestLineOf(line, req) == req.(verb := verb, path := path, version := version)
  {
    hide StartOf, RequestLineOk, RequestLineOf;
    forall verb, path, version |
      verb != UNKNOWN && path != [] && ' ' !in path && line == StartOf(verb, path, version)
      ensures RequestLineOk(line)
      ensures RequestLineOf(line, req) == req.(verb := verb, path := path, version := version)
    {
      StartRead(verb, path, version, req);
    }
    if RequestLineOk(line) {
      var verb, path, version := StartParse(line);
    }
  }

  lemma {:induction false} HeadersRead(m: Machine, fs: seq<Field>, rest: Buffer)
    requires m.state == Headers && LegalFields(fs) && m.buf == LinesBytes(FieldLines(fs)) + rest
    ensures var headers := HeadersOf(fs, m.req.headers);
            Run(m) == Run(m.(state := Framing(headers), req := m.req.(headers := headers), buf := rest))
    decreases |fs|
  {
    hide LegalLine, FieldLine, HeaderLineOk, HeaderLineOf, Framing, Run, Stored;
    if fs == [] {
      EmptyIsLegal();
      assert FieldLines(fs) == [];
      assert m.buf == [] + CRLF + rest;
      TakeLineStep(m, [], rest);
    } else {
      var line := FieldLine(fs[0]);
      assert FieldLines(fs) == [line] + FieldLines(fs[1..]);
      var tail := LinesBytes(FieldLines(fs[1..])) + rest;
      assert m.buf == line + CRLF + tail;
      FieldRead(fs[0], m.req);
      TakeLineStep(m, line, tail);
      HeadersRead(OnLine(m.(buf := tail), line), fs[1..], rest);
    }
  }

  lemma {:induction false} HeadersParse(m: Machine) returns (fs: seq<Field>, n: Machine)
    requires m.state == Headers && Run(m).0 == Parsed
    ensures LegalFields(fs)
    ensures var headers := HeadersOf(fs, m.req.headers);
            n == m.(state := Framing(headers), req := m.req.(headers := headers), buf := n.buf)
    ensures m.buf == LinesBytes(FieldLines(fs)) + n.buf && Run(n) == Run(m)
    decreases |m.buf|
  {
    hide LineFrame, LegalLine, FieldLine, HeaderLineOk, HeaderLineOf, Framing, Run, Stored;
    LineTaken(m);
    var f := LineFrame(m.buf);
    n := OnLine(m.(buf := f.rest), f.out);
    if f.out == [] {
      fs := [];
      assert FieldLines(fs) == [];
    } else {
      ErrorIsBad(n);
      var field := FieldParse(f.out);
      FieldRead(field, m.req);
      var fs' ;
      fs', n := HeadersParse(n);
      fs := [field] + fs';
      assert fs[1..] == fs';
      assert FieldLines(fs) == [f.out] + FieldLines(fs');
    }
  }

  lemma PayloadRead(m: Machine, p: Payload, rest: Buffer)
    requires m.state == Framing(m.req.headers) && m.req.body == []
    requires LegalPayload(p, m.req.headers) && m.buf == PayloadBytes(p) + rest
    ensures Delivers(m, m.req.(body := PayloadData(p)), rest)
  {
    hide LineFrame, BytesFrame, ContentLengthOf, Framing, AnnouncesChunks, LegalChunked, Step;
    FramingIs(m.req.headers);
    match p
    case NoBody =>
    case InChunks(x) =>
      ChunkedRead(m, x, rest);
      assert [] + Data(x.chunks) == Data(x.chunks);
    case Sized(data) =>
      SizedRead(m, data, rest);
  }

  lemma SizedRead(m: Machine, data: Buffer, rest: Buffer)
    requires m.state == Body && m.req.body == [] && m.buf == data + rest
    requires |data| == ContentLengthOf(m.req.headers) <= MAX_HTTP_BODY_SIZE
    ensures Delivers(m, m.req.(body := data), rest)
  {
    hide BytesFrame, ContentLengthOf;
    ContentLengthFits(m.req.headers);
    BytesFrameOf(data, rest);
    RunStep(m, m.(state := Complete, req := m.req.(body := data), buf := rest));
  }

  lemma PayloadParse(m: Machine) returns (p: Payload)
    requires m.state == Framing(m.req.headers) && m.req.body == [] && Run(m).0 == Parsed
    ensures LegalPayload(p, m.req.headers) && m.buf == PayloadBytes(p) + Run(m).1.buf
  {
    hide LineFrame, BytesFrame, ContentLengthOf, Framing, AnnouncesChunks, LegalChunked;
    FramingIs(m.req.headers);
    if m.state == ChunkSize {
      var x := ChunkedParse(m);
      p := InChunks(x);
    } else if m.state == Body {
      ContentLengthFits(m.req.headers);
      p := Sized(BytesFrame(m.buf, BytesNeeded(m)).out);
    } else {
      p := NoBody;
    }
  }

  lemma MessageRead(buf: Buffer, x: Message, rest: Buffer)
    requires LegalMessage(x) && buf == MessageBytes(x) + rest
    ensures Delivers(Fresh(buf), Meaning(x), rest)
  {
    hide LegalLine, Framing, Run, LegalPayload, LegalFields, LinesBytes, FieldLines, StartOf;
    hide RequestLineOk, RequestLineOf, HeadersOf, PayloadData, PayloadBytes;
    var after := LinesBytes(FieldLines(x.fields)) + (PayloadBytes(x.payload) + rest);
    assert buf == StartLine(x) + CRLF + after;
    StartRead(x.verb, x.path, x.version, EmptyRequest);
    TakeLineStep(Fresh(buf), StartLine(x), after);
    var m := OnLine(Fresh(after), StartLine(x));
    HeadersRead(m, x.fields, PayloadBytes(x.payload) + rest);
    var headers := HeadersOf(x.fields, map[]);
    PayloadRead(m.(state := Framing(headers), req := m.req.(headers := headers), buf := PayloadBytes(x.payload) + rest),
                x.payload, rest);
  }

  lemma MessageParse(buf: Buffer) returns (x: Message)
    requires Run(Fresh(buf)).0 == Parsed
    ensures LegalMessage(x) && buf == MessageBytes(x) + Run(Fresh(buf)).1.buf
  {
    hide LineFrame, LegalLine, Framing, Run, LegalPayload, LegalFields, StartOf, LinesBytes, FieldLines;
    hide RequestLineOk, RequestLineOf, HeadersOf, PayloadBytes;
    var m := Fresh(buf);
    LineTaken(m);
    var f := LineFrame(buf);
    var n := OnLine(m.(buf := f.rest), f.out);
    ErrorIsBad(n);
    var verb, path, version := StartParse(f.out);
    StartRead(verb, path, version, EmptyRequest);
    var fs, o := HeadersParse(n);
    var p := PayloadParse(o);
    x := Message(verb, path, version, fs, p);
    assert StartLine(x) == f.out;
    assert buf == MessageBytes(x) + Run(m).1.buf by {
      assert n.buf == LinesBytes(FieldLines(fs)) + (PayloadBytes(p) + Run(m).1.buf);
    }
  }

  /** The parser is exactly the grammar: it delivers a request if and only if
      the buffer begins with a legal message, and then it delivers what that
      message means and leaves what follows it. So no buffer begins with two
      legal messages that mean different requests or end at different places. */
  lemma MessageExactly(buf: Buffer)
    ensures Run(Fresh(buf)).0 == Parsed <==> exists x, rest :: LegalMessage(x) && buf == MessageBytes(x) + rest
    ensures forall x, rest :: LegalMessage(x) && buf == MessageBytes(x) + rest ==>
              Delivers(Fresh(buf), Meaning(x), rest)
  {
    hide Run, LegalMessage, MessageBytes, Meaning;
    forall x, rest | LegalMessage(x) && buf == MessageBytes(x) + rest
      ensures Delivers(Fresh(buf), Meaning(x), rest)
    {
      MessageRead(buf, x, rest);
    }
    if Run(Fresh(buf)).0 == Parsed {
      var x := MessageParse(buf);
    }
  }

  /** What a delivered request says of its first line is what stands there. */
  lemma DeliveredStart(buf: Buffer) returns (rest: Buffer)
    requires Run(Fresh(buf)).0 == Parsed
    ensures var req := Run(Fresh(buf)).1.req;
            req.verb != UNKNOWN && buf == StartOf(req.verb, req.path, req.version) + CRLF + rest
  {
    hide LegalMessage, MessageBytes, Run, StartOf, HeadersOf, PayloadData;
    var x := MessageParse(buf);
    MessageRead(buf, x, Run(Fresh(buf)).1.buf);
    rest := AfterStart(x, Run(Fresh(buf)).1.buf);
  }

  lemma AfterStart(x: Message, left: Buffer) returns (rest: Buffer)
    requires LegalMessage(x)
    ensures x.verb != UNKNOWN && MessageBytes(x) + left == StartLine(x) + CRLF + rest
  {
    hide LinesBytes, FieldLines, PayloadBytes, StartOf, LegalFields, LegalPayload, LegalLine;
    var after := LinesBytes(FieldLines(x.fields)) + PayloadBytes(x.payload);
    rest := after + left;
  }
}
