/** A condition on messages under which cuts do not matter: no line is longer
    than 8191 bytes. */
module ShortLines {
  import opened Bytes
  import opened HttpHeaders
  import opened HttpRequest
  import opened Framer
  import opened HttpRequestParser
  import opened ParserLaws
  import opened MessageGrammar
  import opened Session

  predicate Short(line: Buffer) {
    |line| < MAX_HTTP_HEADER_SIZE
  }

  ghost predicate AllShort(lines: seq<Buffer>) {
    forall i :: 0 <= i < |lines| ==> Short(lines[i])
  }

  ghost predicate ShortChunked(x: Chunked) {
    Short(x.last) && AllShort(x.trailers) && forall i :: 0 <= i < |x.chunks| ==> Short(x.chunks[i].line)
  }

  ghost predicate ShortMessage(x: Message) {
    Short(StartLine(x)) && AllShort(FieldLines(x.fields)) && (x.payload.InChunks? ==> ShortChunked(x.payload.body))
  }

  lemma TameStep(m: Machine, n: Machine)
    requires m.state != Complete && m.state != Error && Step(m) == Go(n)
    ensures Tame(m) <==> (WantsLine(m.state) ==> !Contested(m.buf)) && Tame(n)
  {
    hide Step;
  }

  lemma LineTame(m: Machine, line: Buffer, rest: Buffer)
    requires WantsLine(m.state) && LegalLine(line) && Short(line) && m.buf == line + CRLF + rest
    ensures Tame(m) <==> Tame(OnLine(m.(buf := rest), line))
  {
    hide Tame, OnLine, Step, Run;
    FirstCrlfOfLine(line, rest);
    TakeLineStep(m, line, rest);
    TameStep(m, OnLine(m.(buf := rest), line));
  }

  lemma DataTame(m: Machine, data: Buffer, rest: Buffer)
    requires m.state == ChunkData && m.remaining == |data| <= MAX_HTTP_BODY_SIZE && m.buf == data + rest
    ensures Tame(m) <==> Tame(m.(state := ChunkCrlf, req := m.req.(body := m.req.body + data), buf := rest))
  {
    hide Tame, BytesFrame;
    BytesFrameOf(data, rest);
    TameStep(m, m.(state := ChunkCrlf, req := m.req.(body := m.req.body + data), buf := rest));
  }

  lemma ChunkTame(m: Machine, c: Chunk, rest: Buffer)
    requires m.state == ChunkSize && LegalChunk(c) && Short(c.line)
    requires |m.req.body| + |c.data| <= MAX_HTTP_BODY_SIZE
    requires m.buf == ChunkBytes(c) + rest
    ensures Tame(m) <==> Tame(m.(remaining := |c.data|, req := m.req.(body := m.req.body + c.data), buf := rest))
  {
    hide Tame, ChunkSizeOf, NoCrlf;
    assert m.buf == c.line + CRLF + (c.data + (CRLF + rest));
    LineTame(m, c.line, c.data + (CRLF + rest));
    var n := m.(state := ChunkData, remaining := |c.data|, buf := c.data + (CRLF + rest));
    DataTame(n, c.data, CRLF + rest);
    var o := n.(state := ChunkCrlf, req := m.req.(body := m.req.body + c.data), buf := CRLF + rest);
    assert [] + CRLF + rest == CRLF + rest;
    EmptyIsLegal();
    LineTame(o, [], rest);
  }

  lemma DoneIsTame(m: Machine)
    requires m.state == Complete
    ensures Tame(m)
  {
  }

  lemma {:induction false} TrailersTame(m: Machine, ls: seq<Buffer>, rest: Buffer)
    requires m.state == Trailers && LegalLines(ls) && AllShort(ls) && m.buf == LinesBytes(ls) + rest
    ensures Tame(m)
    decreases |ls|
  {
    hide Tame, LegalLine, Short;
    if ls == [] {
      EmptyIsLegal();
      EmptyIsShort();
      assert m.buf == [] + CRLF + rest;
      LineTame(m, [], rest);
      DoneIsTame(m.(state := Complete, buf := rest));
    } else {
      var n := m.(buf := LinesBytes(ls[1..]) + rest);
      assert m.buf == ls[0] + CRLF + n.buf;
      LineTame(m, ls[0], n.buf);
      TrailersTame(n, ls[1..], rest);
    }
  }

  lemma EmptyIsShort()
    ensures Short([])
  {
  }

  lemma {:induction false} ChunkedTame(m: Machine, x: Chunked, rest: Buffer)
    requires m.state == ChunkSize && LegalChunked(x, |m.req.body|) && ShortChunked(x)
    requires m.buf == ChunkedBytes(x) + rest
    ensures Tame(m)
    decreases |x.chunks|
  {
    hide Tame, LegalLine, NoCrlf, ChunkSizeOf, Short;
    if x.chunks == [] {
      var n := m.(state := Trailers, buf := LinesBytes(x.trailers) + rest);
      assert m.buf == x.last + CRLF + n.buf;
      LineTame(m, x.last, n.buf);
      TrailersTame(n, x.trailers, rest);
    } else {
      var c, y := x.chunks[0], x.(chunks := x.chunks[1..]);
      var n := m.(remaining := |c.data|, req := m.req.(body := m.req.body + c.data), buf := ChunkedBytes(y) + rest);
      assert m.buf == ChunkBytes(c) + n.buf;
      ChunkTame(m, c, n.buf);
      ChunkedTame(n, y, rest);
    }
  }

  lemma {:induction false} HeadersTame(m: Machine, fs: seq<Field>, rest: Buffer)
    requires m.state == Headers && LegalFields(fs) && AllShort(FieldLines(fs))
    requires m.buf == LinesBytes(FieldLines(fs)) + rest
    ensures var headers := HeadersOf(fs, m.req.headers);
            Tame(m) <==> Tame(m.(state := Framing(headers), req := m.req.(headers := headers), buf := rest))
    decreases |fs|
  {
    hide Tame, LegalLine, FieldLine, HeaderLineOk, HeaderLineOf, Framing, Stored, Short;
    if fs == [] {
      EmptyIsLegal();
      EmptyIsShort();
      assert FieldLines(fs) == [];
      assert m.buf == [] + CRLF + rest;
      LineTame(m, [], rest);
    } else {
      var line := FieldLine(fs[0]);
      assert FieldLines(fs) == [line] + FieldLines(fs[1..]);
      var tail := LinesBytes(FieldLines(fs[1..])) + rest;
      assert m.buf == line + CRLF + tail;
      FieldRead(fs[0], m.req);
      assert Short(line) by { assert FieldLines(fs)[0] == line; }
      LineTame(m, line, tail);
      assert AllShort(FieldLines(fs[1..])) by {
        assert forall i :: 0 <= i < |fs| - 1 ==> FieldLines(fs[1..])[i] == FieldLines(fs)[i + 1];
      }
      HeadersTame(OnLine(m.(buf := tail), line), fs[1..], rest);
    }
  }

  lemma PayloadTame(m: Machine, p: Payload, rest: Buffer)
    requires m.state == Framing(m.req.headers) && m.req.body == []
    requires LegalPayload(p, m.req.headers) && m.buf == PayloadBytes(p) + rest
    requires p.InChunks? ==> ShortChunked(p.body)
    ensures Tame(m)
  {
    hide ContentLengthOf, Framing, AnnouncesChunks, LegalChunked, Tame, Step;
    FramingIs(m.req.headers);
    match p
    case NoBody => DoneIsTame(m);
    case InChunks(x) => ChunkedTame(m, x, rest);
    case Sized(data) => SizedTame(m, data, rest);
  }

  lemma SizedTame(m: Machine, data: Buffer, rest: Buffer)
    requires m.state == Body && m.req.body == [] && m.buf == data + rest
    requires |data| == ContentLengthOf(m.req.headers) <= MAX_HTTP_BODY_SIZE
    ensures Tame(m)
  {
    hide BytesFrame, ContentLengthOf, Tame;
    ContentLengthFits(m.req.headers);
    BytesFrameOf(data, rest);
    var n := m.(state := Complete, req := m.req.(body := data), buf := rest);
    TameStep(m, n);
    DoneIsTame(n);
  }

  lemma MessageTame(buf: Buffer, x: Message, rest: Buffer)
    requires LegalMessage(x) && ShortMessage(x) && buf == MessageBytes(x) + rest
    ensures Tame(Fresh(buf))
  {
    hide LegalLine, Framing, Tame, LegalPayload, LegalFields, LinesBytes, FieldLines, StartOf;
    hide RequestLineOk, RequestLineOf, HeadersOf, PayloadBytes, Short, ShortChunked;
    var after := LinesBytes(FieldLines(x.fields)) + (PayloadBytes(x.payload) + rest);
    assert buf == StartLine(x) + CRLF + after;
    StartRead(x.verb, x.path, x.version, EmptyRequest);
    LineTame(Fresh(buf), StartLine(x), after);
    var m := OnLine(Fresh(after), StartLine(x));
    HeadersTame(m, x.fields, PayloadBytes(x.payload) + rest);
    var headers := HeadersOf(x.fields, map[]);
    PayloadTame(m.(state := Framing(headers), req := m.req.(headers := headers), buf := PayloadBytes(x.payload) + rest),
                x.payload, rest);
  }

  /** A buffer that has no room for a contested line and its end. */
  lemma {:induction false} BriefIsTame(m: Machine)
    requires |m.buf| <= MAX_HTTP_HEADER_SIZE + 1
    ensures Tame(m)
    decreases |m.buf|, Rank(m.state)
  {
    hide Step;
    if m.state != Complete && m.state != Error && Step(m).Go? {
      BriefIsTame(Step(m).next);
    }
  }

  lemma {:induction false} BriefSession(policy: Policy, s: Session)
    requires s.Open? ==> |s.m.buf| <= MAX_HTTP_HEADER_SIZE + 1
    ensures TameSession(policy, s)
    decreases if s.Open? then |s.m.buf| else 0, if s.Open? then Age(s.m) else 0
  {
    hide Run, Tame;
    if !Idle(s) {
      BriefIsTame(s.m);
      if One(policy, s).1 {
        BriefSession(policy, One(policy, s).0);
      }
    }
  }

  function MessagesBytes(xs: seq<Message>): Buffer {
    if xs == [] then [] else MessageBytes(xs[0]) + MessagesBytes(xs[1..])
  }

  /** Something that a client can see to: a stream of legal messages without long
      lines, and at most 8193 bytes after them, is answered in the same way
      however it is cut. */
  lemma {:induction false} ShortLinesAreTame(policy: Policy, xs: seq<Message>, tail: Buffer, replies: seq<Reply>)
    requires forall i :: 0 <= i < |xs| ==> LegalMessage(xs[i]) && ShortMessage(xs[i])
    requires |tail| <= MAX_HTTP_HEADER_SIZE + 1
    ensures TameSession(policy, Open(Fresh(MessagesBytes(xs) + tail), replies))
    decreases |xs|
  {
    hide LegalMessage, ShortMessage, MessageBytes, Run, Tame, Meaning, TameSession;
    var buf := MessagesBytes(xs) + tail;
    var s := Open(Fresh(buf), replies);
    if xs == [] {
      BriefSession(policy, s);
    } else {
      var rest := MessagesBytes(xs[1..]) + tail;
      assert buf == MessageBytes(xs[0]) + rest;
      MessageTame(buf, xs[0], rest);
      MessageRead(buf, xs[0], rest);
      assert One(policy, s).1 ==> One(policy, s).0 == Open(Fresh(rest), replies + [Answer(Meaning(xs[0]))]);
      ShortLinesAreTame(policy, xs[1..], tail, replies + [Answer(Meaning(xs[0]))]);
      if buf == [] {
        BriefSession(policy, s);
      } else {
        FinishOne(policy, s);
      }
    }
  }

  function AnswersTo(xs: seq<Message>): seq<Reply> {
    if xs == [] then [] else [Answer(Meaning(xs[0]))] + AnswersTo(xs[1..])
  }

  ghost predicate KeepsOpen(policy: Policy) {
    forall n: nat, req :: policy(n, req) == KeepOpen
  }

  lemma MessageAnswered(policy: Policy, x: Message, rest: Buffer, replies: seq<Reply>)
    requires KeepsOpen(policy) && LegalMessage(x)
    ensures var s := Open(Fresh(MessageBytes(x) + rest), replies);
            && Finish(policy, s) == Finish(policy, Open(Fresh(rest), replies + [Answer(Meaning(x))]))
  {
    var buf := MessageBytes(x) + rest;
    var s := Open(Fresh(buf), replies);
    NotEmpty(s.m);
    MessageRead(buf, x, rest);
    hide LegalMessage, MessageBytes, Meaning, Run, Finish;
    assert One(policy, s) == (Open(Fresh(rest), replies + [Answer(Meaning(x))]), true);
    FinishOne(policy, s);
  }

  lemma NotEmpty(m: Machine)
    requires m.state == RequestLine
    ensures Run(m).0 == Parsed ==> m.buf != []
  {
  }

  lemma {:induction false} AllAnswered(policy: Policy, xs: seq<Message>, replies: seq<Reply>)
    requires KeepsOpen(policy) && forall i :: 0 <= i < |xs| ==> LegalMessage(xs[i])
    ensures Finish(policy, Open(Fresh(MessagesBytes(xs)), replies)) == Open(Fresh([]), replies + AnswersTo(xs))
    decreases |xs|
  {
    hide LegalMessage, MessageBytes, Meaning, KeepsOpen, Finish, Fresh, WellFormed;
    if xs == [] {
      EmptyIsDone(policy, replies);
      assert replies + [] == replies;
    } else {
      var reply := Answer(Meaning(xs[0]));
      MessageAnswered(policy, xs[0], MessagesBytes(xs[1..]), replies);
      AllAnswered(policy, xs[1..], replies + [reply]);
      assert (replies + [reply]) + AnswersTo(xs[1..]) == replies + ([reply] + AnswersTo(xs[1..]));
    }
  }

  lemma EmptyIsDone(policy: Policy, replies: seq<Reply>)
    ensures Finish(policy, Open(Fresh([]), replies)) == Open(Fresh([]), replies)
  {
  }

  /** Pipelining: legal messages without long lines, on a connection that stays
      open, are answered one by one, in order and with nothing left over, however
      the stream is cut and wherever the cut after 51 requests falls. */
  lemma PipeliningInOrder(policy: Policy, xs: seq<Message>, batches: seq<Buffer>)
    requires KeepsOpen(policy) && forall i :: 0 <= i < |xs| ==> LegalMessage(xs[i]) && ShortMessage(xs[i])
    requires ConcatAll(batches) == MessagesBytes(xs)
    ensures Finish(policy, Serve(policy, NewSession, batches)) == Open(Fresh([]), AnswersTo(xs))
  {
    hide LegalMessage, ShortMessage, Finish, Serve, ConcatAll, TameSession, KeepsOpen;
    var stream := MessagesBytes(xs);
    assert stream + [] == stream && [] + stream == stream;
    ShortLinesAreTame(policy, xs, [], []);
    SplitIndependent(policy, NewSession, batches);
    AllAnswered(policy, xs, []);
    assert [] + AnswersTo(xs) == AnswersTo(xs);
  }
}
