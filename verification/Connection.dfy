/** A connection and its read and write tasks, which hold the connection's
    mutex and therefore run one after the other: what a task does to the value
    of a connection, and the object that does it in place. */
module Connection {
  import opened Bytes
  import opened HttpHeaders
  import opened HttpRequest
  import opened HttpResponse
  import opened HttpResponseEncoder
  import opened HttpRequestParser
  import opened ParserLaws
  import opened Session

  // ------------------------------------------------------------------ replies

  /** What a connection depends on: the router with its handlers, whether the
      limiter allows the n-th request of the connection, and the order in which
      the header map of the n-th response is walked. */
  datatype Server = Server(
    route: Request -> Response, allow: nat -> bool, walk: (nat, HeaderMap) -> seq<Buffer>)

  /** Every walk visits every header once. */
  ghost predicate Walks(server: Server) {
    forall n: nat, headers :: IsOrder(server.walk(n, headers), headers)
  }

  /** Every map has such an order, so these walks exist for every router. */
  lemma SomeWalks(route: Request -> Response, allow: nat -> bool) returns (server: Server)
    ensures Walks(server) && server.route == route && server.allow == allow
  {
    server := Server(route, allow, (n, headers) => SomeOrder(headers));
  }

  ghost function SomeOrder(headers: HeaderMap): (order: seq<Buffer>)
    ensures IsOrder(order, headers)
    decreases |headers|
  {
    if headers == map[] then []
    else
      var k :| k in headers;
      SomeOrder(headers - {k}) + [k]
  }

  function Page(code: nat, message: Buffer, headers: HeaderMap, text: Buffer): Response {
    DefaultResponse.(code := code, message := message, body := text,
                     headers := Stored(headers, "Content-Type", "text/html; charset=utf-8"))
  }

  /** What a reply is made from: the response of a handler, or one of two pages. */
  function Made(server: Server, reply: Reply): Response {
    match reply
    case Answer(req) => server.route(req)
    case TooManyRequests =>
      Page(429, "Too Many Requests", Stored(map[], "Retry-After", "1"), "<h1>429 Too Many Requests</h1>")
    case BadRequest => Page(400, "Bad Request", map[], "<h1>400 Bad Request</h1>")
  }

  /** Only a client whose request was answered can keep the connection open. */
  predicate ClientKeeps(reply: Reply) {
    reply.Answer? && WantsKeepAlive(reply.req)
  }

  function ResponseTo(server: Server, reply: Reply): Response {
    Finalized(Made(server, reply), ClientKeeps(reply))
  }

  /** The response tells the client that the connection is closed after it. */
  predicate Closes(server: Server, reply: Reply) {
    ResponseTo(server, reply).closeAfterSend
  }

  function PolicyOf(server: Server): Policy {
    (n: nat, req: Request) =>
      if !server.allow(n) then Limited
      else if Closes(server, Answer(req)) then CloseAfter
      else KeepOpen
  }

  /** The bytes of the n-th reply. */
  ghost function WireOf(server: Server, n: nat, reply: Reply): Buffer
    requires Walks(server)
  {
    var r := WithFraming(ResponseTo(server, reply));
    StatusLine(ResponseTo(server, reply)) + Tail(r, server.walk(n, r.headers), false)
  }

  // --------------------------------------------------- a connection as a value

  /** The machine, the replies so far, the bytes that wait to be sent and the
      ones that the kernel has taken, and `close_after_write_flag`. */
  datatype Link = Link(m: Machine, replies: seq<Reply>, queued: Buffer, sent: Buffer, closing: bool)

  /** The connection as it is accepted. */
  const NewLink := Link(Fresh([]), [], [], [], false)

  datatype Flushed = Flushed(taken: Buffer, left: Buffer, error: bool)

  /** What `flush` takes off the buffer when the calls of `send` return `sends`:
      a number of bytes, 0, EAGAIN (-1, also when the list ends) or another
      error. */
  function FlushOf(buf: Buffer, sends: seq<int>): (f: Flushed)
    ensures f.taken + f.left == buf
    ensures f.error ==> f.left != []
    decreases |sends|
  {
    if buf == [] || sends == [] || sends[0] == 0 || sends[0] == -1 then Flushed([], buf, false)
    else if sends[0] < 0 then Flushed([], buf, true)
    else
      var n := if sends[0] < |buf| then sends[0] else |buf|;
      var head, tail := buf[..n], buf[n..];
      assert head + tail == buf;
      var f := FlushOf(tail, sends[1..]);
      assert head + (f.taken + f.left) == (head + f.taken) + f.left;
      f.(taken := head + f.taken)
  }

  function Sum(ns: seq<int>): int {
    if ns == [] then 0 else ns[0] + Sum(ns[1..])
  }

  /** What `flush` takes, exactly: if the first `k` calls of `send` take something
      and the next does not, the bytes that are taken are as many as these calls
      take, at most the whole buffer; and there is an error if and only if bytes
      are left when the next call fails for another reason than EAGAIN. */
  lemma {:induction false} FlushTakes(buf: Buffer, sends: seq<int>, k: nat)
    requires k <= |sends| && (forall i :: 0 <= i < k ==> sends[i] > 0) && (k < |sends| ==> sends[k] <= 0)
    ensures var f, n := FlushOf(buf, sends), Sum(sends[..k]);
            && f.taken + f.left == buf && |f.taken| == (if n < |buf| then n else |buf|)
            && (f.error <==> n < |buf| && k < |sends| && sends[k] < -1)
    decreases k
  {
    if k == 0 {
      assert sends[..k] == [];
    } else if buf == [] {
      SumPositive(sends[..k]);
    } else {
      var n := if sends[0] < |buf| then sends[0] else |buf|;
      var tail := buf[n..];
      FlushStep(buf, sends, n, tail);
      hide FlushOf;
      FlushTakes(tail, sends[1..], k - 1);
      assert sends[..k][1..] == sends[1..][..k - 1];
      SumPositive(sends[1..][..k - 1]);
    }
  }

  lemma FlushStep(buf: Buffer, sends: seq<int>, n: nat, tail: Buffer)
    requires buf != [] && sends != [] && sends[0] > 0
    requires n == (if sends[0] < |buf| then sends[0] else |buf|) && tail == buf[n..]
    ensures |FlushOf(buf, sends).taken| == n + |FlushOf(tail, sends[1..]).taken|
    ensures FlushOf(buf, sends).error == FlushOf(tail, sends[1..]).error
  {
  }

  lemma {:induction false} SumPositive(ns: seq<int>)
    requires forall i :: 0 <= i < |ns| ==> ns[i] > 0
    ensures Sum(ns) >= 0
  {
    if ns != [] {
      SumPositive(ns[1..]);
    }
  }

  ghost function Replied(server: Server, l: Link, reply: Reply): Link
    requires Walks(server)
  {
    l.(replies := l.replies + [reply], queued := l.queued + WireOf(server, |l.replies|, reply))
  }

  ghost function AfterFlush(l: Link, sends: seq<int>): Link {
    var f := FlushOf(l.queued, sends);
    l.(queued := f.left, sent := l.sent + f.taken)
  }

  /** How one turn of the parse loop ends. */
  datatype Turn = Waiting | Refused | Closing | Answered

  /** One turn: the parser, and the reply to what it found. */
  ghost function TurnOf(server: Server, l: Link): (r: (Link, Turn))
    requires Walks(server)
  {
    var p := Run(l.m);
    var next := l.(m := p.1);
    match p.0
    case NeedMore => (next, Waiting)
    case Bad => (Replied(server, next, BadRequest), Refused)
    case Parsed =>
      if !server.allow(|l.replies|) then (Replied(server, next, TooManyRequests), Refused)
      else
        var reply := Answer(p.1.req);
        (Replied(server, l.(m := Fresh(p.1.buf)), reply), if Closes(server, reply) then Closing else Answered)
  }

  datatype Looped = Looped(link: Link, turn: Turn, more: bool)

  /** The parse loop, cut after `n` requests. */
  ghost function LoopOf(server: Server, l: Link, n: nat): Looped
    requires Walks(server)
    decreases n
  {
    if l.m.buf == [] || n == 0 then Looped(l, Waiting, false)
    else
      var (next, turn) := TurnOf(server, l);
      if turn != Answered then Looped(next, turn, false)
      else if n == 1 then Looped(next, turn, true)
      else LoopOf(server, next, n - 1)
  }

  /** How the drain loop of a read task ends. */
  datatype RecvEnd = WouldBlock | PeerClosed | RecvError

  /** How a task ends: it arms epoll for input, for output or for both, and
      resubmits the read task if `again`; or it removes the connection. */
  datatype Disposition = Rearm(input: bool, output: bool, again: bool) | Remove

  function AfterDrain(l: Link, received: seq<Buffer>): Link {
    l.(m := Fed(l.m, ConcatAll(received)))
  }

  /** A read task: drain the socket, parse, flush, and say how to go on. */
  ghost function ReadTaskOf(server: Server, l: Link, received: seq<Buffer>, ending: RecvEnd, sends: seq<int>,
                            running: bool): (Link, Disposition)
    requires Walks(server)
  {
    var drained := AfterDrain(l, received);
    if ending != WouldBlock then (drained, Remove)
    else
      var p := LoopOf(server, drained, MAX_REQUESTS_PER_PASS);
      var f := AfterFlush(p.link, sends);
      if p.turn == Refused || FlushOf(p.link.queued, sends).error then (f, Remove)
      else if p.turn != Closing then (f, Rearm(true, f.queued != [], p.more && running))
      else if f.queued == [] then (f, Remove)
      else (f.(closing := true), Rearm(false, true, false))
  }

  /** A write task. */
  ghost function WriteTaskOf(l: Link, sends: seq<int>, running: bool): (Link, Disposition) {
    var f := AfterFlush(l, sends);
    (f, if FlushOf(l.queued, sends).error then Remove
        else if f.queued != [] then Rearm(running, true, false)
        else if l.closing || !running then Remove
        else Rearm(true, false, false))
  }

  // ------------------------------------------------------------------- object

  class Connection {
    const read_buffer: ByteVector
    var write_buffer: Buffer
    var close_after_write_flag: bool
    const parser: HttpRequestParser
    const request: HttpRequest
    const server: Server
    // History: what the kernel has taken, and the replies so far, whose number
    // is what the limiter's answer depends on.
    ghost var sent: Buffer
    var replies: seq<Reply>

    constructor (server: Server)
      ensures fresh(Repr()) && this.server == server && View() == NewLink
    {
      read_buffer := new ByteVector([]);
      parser := new HttpRequestParser();
      request := new HttpRequest();
      write_buffer, close_after_write_flag := [], false;
      this.server := server;
      sent, replies := [], [];
    }

    ghost function Repr(): set<object>
      reads this
    {
      {this, read_buffer, parser, request, request.headers}
    }

    ghost function View(): Link
      reads this, parser, read_buffer, request, request.headers
    {
      Link(parser.View(read_buffer, request), replies, write_buffer, sent, close_after_write_flag)
    }

    method AppendReadData(data: Buffer)
      modifies read_buffer
      ensures read_buffer.data == old(read_buffer.data) + data
    {
      read_buffer.data := read_buffer.data + data;
    }

    method AppendUnsentData(data: Buffer)
      modifies `write_buffer
      ensures write_buffer == old(write_buffer) + data
    {
      write_buffer := write_buffer + data;
    }

    /** Sends until the buffer is empty or the kernel takes no more. */
    method Flush(sends: seq<int>) returns (flushed: bool, has_error: bool)
      modifies `write_buffer, `sent
      ensures View() == AfterFlush(old(View()), sends)
      ensures flushed == (write_buffer == []) && has_error == FlushOf(old(write_buffer), sends).error
    {
      var answers := sends;
      while write_buffer != []
        invariant var f, g := FlushOf(old(write_buffer), sends), FlushOf(write_buffer, answers);
                  old(sent) + f.taken == sent + g.taken && f.left == g.left && f.error == g.error
        decreases |write_buffer|
      {
        if answers == [] { return false, false; }
        var n := answers[0];
        if n > 0 {
          var taken := if n < |write_buffer| then n else |write_buffer|;
          ghost var g := FlushOf(write_buffer[taken..], answers[1..]);
          assert sent + (write_buffer[..taken] + g.taken) == (sent + write_buffer[..taken]) + g.taken;
          sent := sent + write_buffer[..taken];
          write_buffer := write_buffer[taken..];
          answers := answers[1..];
        } else if n == 0 || n == -1 {
          return false, false;
        } else {
          return false, true;
        }
      }
      return true, false;
    }

    /** Encodes a response and queues it. */
    method Respond(response: HttpResponse, reply: Reply)
      requires Walks(server) && response.View() == ResponseTo(server, reply)
      requires response !in Repr() && response.headers !in Repr()
      modifies `write_buffer, `replies, response, response.headers
      ensures View() == Replied(server, old(View()), reply)
    {
      hide ResponseTo, StatusLine, Tail, WithFraming;
      var order := server.walk(|replies|, WithFraming(response.View()).headers);
      var wire := Encode(response, false, order);
      AppendUnsentData(wire);
      replies := replies + [reply];
    }

    /** The answer of a handler, finished for this connection. */
    method AnswerRequest() returns (closes: bool)
      requires Walks(server)
      modifies `write_buffer, `replies
      ensures var reply := Answer(request.View());
              View() == Replied(server, old(View()), reply) && closes == Closes(server, reply)
    {
      hide Finalized, WantsKeepAlive, Walks, Replied;
      var req := request.View();
      var response := new HttpResponse.Of(server.route(req));
      response.FinalizeForConnection(WantsKeepAlive(req));
      closes := response.close_after_send;
      Respond(response, Answer(req));
    }

    /** A 429 or a 400, after which the connection is closed. */
    method Refuse(limited: bool)
      requires Walks(server)
      modifies `write_buffer, `replies
      ensures View() == Replied(server, old(View()), if limited then TooManyRequests else BadRequest)
    {
      hide Finalized, Walks, Replied;
      var response := new HttpResponse();
      if limited {
        response.SetStatus(429, "Too Many Requests");
        response.SetHeader("Retry-After", "1");
        response.Html("<h1>429 Too Many Requests</h1>");
      } else {
        response.SetStatus(400, "Bad Request");
        response.Html("<h1>400 Bad Request</h1>");
      }
      response.FinalizeForConnection(false);
      Respond(response, if limited then TooManyRequests else BadRequest);
    }

    /** The body of the parse loop: one call of the parser, and the reply. */
    method HandleRequest() returns (turn: Turn)
      requires Walks(server)
      modifies Repr()
      ensures (View(), turn) == TurnOf(server, old(View()))
    {
      hide Run, Walks, WireOf;
      var result := parser.Parse(read_buffer, request);
      if result == NeedMore {
        return Waiting;
      }
      if result == Bad {
        Refuse(false);
        return Refused;
      }
      if !server.allow(|replies|) {
        Refuse(true);
        return Refused;
      }
      var close_after_response := AnswerRequest();
      request.Reset();
      parser.Reset();
      return if close_after_response then Closing else Answered;
    }

    /** The parse loop of a read task, which makes way after 51 requests. */
    method ParseLoop() returns (turn: Turn, more: bool)
      requires Walks(server)
      modifies Repr()
      ensures Looped(View(), turn, more) == LoopOf(server, old(View()), MAX_REQUESTS_PER_PASS)
    {
      hide TurnOf, Walks;
      var loop_counter := 0;
      more := false;
      turn := Waiting;
      while read_buffer.data != []
        invariant 0 <= loop_counter < MAX_REQUESTS_PER_PASS
        invariant LoopOf(server, View(), MAX_REQUESTS_PER_PASS - loop_counter) ==
                  LoopOf(server, old(View()), MAX_REQUESTS_PER_PASS)
        decreases MAX_REQUESTS_PER_PASS - loop_counter
      {
        loop_counter := loop_counter + 1;
        turn := HandleRequest();
        if turn != Answered { return; }
        if loop_counter > 50 {
          more := true;
          return;
        }
      }
      turn := Waiting;
    }

    /** The drain loop of a read task. */
    method Drain(received: seq<Buffer>)
      modifies read_buffer
      ensures View() == AfterDrain(old(View()), received)
    {
      assert read_buffer.data + [] == read_buffer.data;
      for i := 0 to |received|
        invariant View() == AfterDrain(old(View()), received[..i])
      {
        ghost var before := old(read_buffer.data) + ConcatAll(received[..i]);
        assert received[..i + 1] == received[..i] + [received[i]];
        ConcatAllAppend(received[..i], [received[i]]);
        ConcatOne(received[i]);
        AppendReadData(received[i]);
        assert before + received[i] == old(read_buffer.data) + (ConcatAll(received[..i]) + received[i]);
      }
      assert received[..|received|] == received;
    }

    /** A read task. */
    method ReadTask(received: seq<Buffer>, ending: RecvEnd, sends: seq<int>, running: bool)
      returns (next: Disposition)
      requires Walks(server)
      modifies Repr()
      ensures (View(), next) == ReadTaskOf(server, old(View()), received, ending, sends, running)
    {
      hide LoopOf, FlushOf, Walks, AfterDrain, Fresh, Run;
      Drain(received);
      if ending != WouldBlock {
        return Remove;
      }
      var turn, more := ParseLoop();
      if turn == Refused {
        var _, _ := Flush(sends);
        return Remove;
      }
      var flushed, has_error := Flush(sends);
      if has_error {
        return Remove;
      }
      if turn == Closing {
        if flushed {
          return Remove;
        }
        close_after_write_flag := true;
        return Rearm(false, true, false);
      }
      return Rearm(true, !flushed, more && running);
    }

    /** A write task. */
    method WriteTask(sends: seq<int>, running: bool) returns (next: Disposition)
      modifies `write_buffer, `sent
      ensures (View(), next) == WriteTaskOf(old(View()), sends, running)
    {
      hide FlushOf;
      var flushed, has_error := Flush(sends);
      if has_error || (flushed && close_after_write_flag) || (flushed && !running) {
        return Remove;
      }
      if flushed {
        return Rearm(true, false, false);
      }
      return Rearm(running, true, false);
    }
  }

  lemma ConcatOne(part: Buffer)
    ensures ConcatAll([part]) == part
  {
    assert [part][1..] == [];
  }
}
