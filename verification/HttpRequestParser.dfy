/** The incremental request parser: the in-place state machine, and the
    function over values that it computes. */
module HttpRequestParser {
  import opened Bytes
  import opened Numerals
  import opened HttpHeaders
  import opened HttpRequest
  import opened Framer

  datatype ParseResult = Parsed | NeedMore | Bad

  datatype State =
    | RequestLine
    | Headers
    | Body
    | ChunkSize
    | ChunkData
    | ChunkCrlf
    | Trailers
    | Complete
    | Error

  /** Everything a call of `parse` depends on and changes. */
  datatype Machine = Machine(state: State, remaining: nat, req: Request, buf: Buffer)

  /** One turn of the loop: wait for more bytes, or go on. */
  datatype Turn = Pause | Go(next: Machine)

  /** The size that a chunk-size line announces: what stands before `;`, which
      must not be empty or begin with a sign or white space, read by `strtoul`
      in base 16 up to its end. */
  function ChunkSizeOf(line: Buffer): Option<nat> {
    var sizeHex := line[..Find(line, ';')];
    if sizeHex == [] then None
    else if sizeHex[0] == '-' || sizeHex[0] == '+' || IsSpace(sizeHex[0]) then None
    else
      var r := Strtoull(CString(sizeHex), 16);
      if r.end == 0 || r.end != |CString(sizeHex)| || r.erange then None
      else Some(r.value)
  }

  function RequestLineOf(line: Buffer, req: Request): Request {
    var first := Find(line, ' ');
    if first == |line| then req
    else
      var tail := line[first + 1..];
      var second := Find(tail, ' ');
      if second == |tail| then req
      else req.(verb := StringToMethod(line[..first]), path := tail[..second], version := tail[second + 1..])
  }

  predicate RequestLineOk(line: Buffer) {
    var first := Find(line, ' ');
    && first < |line|
    && Find(line[first + 1..], ' ') < |line[first + 1..]|
    && StringToMethod(line[..first]) != UNKNOWN
    && Find(line[first + 1..], ' ') > 0
  }

  function TrimLeft(s: Buffer): (t: Buffer)
    ensures t != [] ==> t[0] != ' ' && t[0] != '\t'
  {
    if s != [] && (s[0] == ' ' || s[0] == '\t') then TrimLeft(s[1..]) else s
  }

  predicate HeaderLineOk(line: Buffer) {
    ':' in line
  }

  function HeaderLineOf(line: Buffer, req: Request): Request
    requires HeaderLineOk(line)
  {
    var colon := Find(line, ':');
    req.(headers := Stored(req.headers, line[..colon], TrimLeft(line[colon + 1..])))
  }

  /** The state that follows the empty line after the headers. */
  function Framing(headers: HeaderMap): State {
    var te := Lookup(headers, "Transfer-Encoding");
    if te.Some? && Contains(te.value, "chunked") then ChunkSize
    else if ContentLengthOf(headers) > 0 then Body
    else Complete
  }

  predicate WantsLine(s: State) {
    s == RequestLine || s == Headers || s == ChunkSize || s == ChunkCrlf || s == Trailers
  }

  /** What a line does to the machine whose buffer it was taken from. */
  function OnLine(m: Machine, line: Buffer): (n: Machine)
    requires WantsLine(m.state)
    ensures n.buf == m.buf
  {
    match m.state
    case RequestLine =>
      m.(req := RequestLineOf(line, m.req), state := if RequestLineOk(line) then Headers else Error)
    case Headers =>
      if line == [] then m.(state := Framing(m.req.headers))
      else if HeaderLineOk(line) then m.(req := HeaderLineOf(line, m.req))
      else m.(state := Error)
    case ChunkSize =>
      (match ChunkSizeOf(line)
       case None => m.(state := Error)
       case Some(n) =>
         if n > MAX_HTTP_BODY_SIZE || |m.req.body| + n > MAX_HTTP_BODY_SIZE then m.(state := Error)
         else if n == 0 then m.(state := Trailers)
         else m.(state := ChunkData, remaining := n))
    case ChunkCrlf =>
      m.(state := if line == [] then ChunkSize else Error)
    case Trailers =>
      if line == [] then m.(state := Complete) else m
  }

  /** `content_length - body.size()` in `size_t`. */
  function BytesNeeded(m: Machine): nat {
    (ContentLengthOf(m.req.headers) - |m.req.body|) % TWO64
  }

  function Rank(s: State): nat {
    match s
    case Complete => 0
    case Error => 0
    case ChunkCrlf => 1
    case _ => 2
  }

  /** Every turn that does not wait makes the buffer shorter or the rank of
      the state smaller. */
  predicate Shrinks(m: Machine, n: Machine) {
    |n.buf| < |m.buf| || (|n.buf| == |m.buf| && Rank(n.state) < Rank(m.state))
  }

  function BodyTurn(m: Machine): (t: Turn)
    requires m.state == Body
    ensures t.Go? ==> Shrinks(m, t.next)
  {
    var f := BytesFrame(m.buf, BytesNeeded(m));
    match f.status
    case Incomplete => Pause
    case Success => Go(m.(state := Complete, req := m.req.(body := f.out), buf := f.rest))
    case _ => Go(m.(state := Error))
  }

  function DataTurn(m: Machine): (t: Turn)
    requires m.state == ChunkData
    ensures t.Go? ==> Shrinks(m, t.next)
  {
    var f := BytesFrame(m.buf, m.remaining);
    match f.status
    case Incomplete => Pause
    case Success => Go(m.(state := ChunkCrlf, req := m.req.(body := m.req.body + f.out), buf := f.rest))
    case _ => Go(m.(state := Error))
  }

  function LineTurn(m: Machine): (t: Turn)
    requires WantsLine(m.state)
    ensures t.Go? ==> Shrinks(m, t.next)
  {
    var f := LineFrame(m.buf);
    match f.status
    case Incomplete => Pause
    case Success => Go(OnLine(m.(buf := f.rest), f.out))
    case _ => Go(m.(state := Error))
  }

  /** One turn of the loop of `parse`. */
  function Step(m: Machine): (t: Turn)
    requires m.state != Complete && m.state != Error
    ensures t.Go? ==> Shrinks(m, t.next)
  {
    if m.state == Body then BodyTurn(m)
    else if m.state == ChunkData then DataTurn(m)
    else LineTurn(m)
  }

  /** What `parse` returns and leaves behind. */
  function Run(m: Machine): (r: (ParseResult, Machine))
    ensures r.0 == Parsed <==> r.1.state == Complete
    ensures r.0 == Bad <==> r.1.state == Error
    ensures |r.1.buf| <= |m.buf|
    ensures r.0 == Parsed && m.state == RequestLine ==> |r.1.buf| < |m.buf|
    decreases |m.buf|, Rank(m.state)
  {
    if m.state == Complete then (Parsed, m)
    else if m.state == Error then (Bad, m)
    else
      match Step(m)
      case Pause => (NeedMore, m)
      case Go(next) => Run(next)
  }

  class HttpRequestParser {
    var m_state: State
    var m_chunk_remaining: nat

    constructor ()
      ensures m_state == RequestLine && m_chunk_remaining == 0
    {
      m_state, m_chunk_remaining := RequestLine, 0;
    }

    method Reset()
      modifies this
      ensures m_state == RequestLine && m_chunk_remaining == 0
    {
      m_state, m_chunk_remaining := RequestLine, 0;
    }

    function View(readBuffer: ByteVector, request: HttpRequest): Machine
      reads this, readBuffer, request, request.headers
    {
      Machine(m_state, m_chunk_remaining, request.View(), readBuffer.data)
    }

    method ParseRequestLine(line: Buffer, request: HttpRequest) returns (ok: bool)
      modifies request
      ensures request.View() == RequestLineOf(line, old(request.View()))
      ensures ok == RequestLineOk(line)
    {
      var first := Find(line, ' ');
      if first == |line| { return false; }
      var tail := line[first + 1..];
      var second := Find(tail, ' ');
      if second == |tail| { return false; }
      request.verb := StringToMethod(line[..first]);
      request.path := tail[..second];
      request.version := tail[second + 1..];
      return request.verb != UNKNOWN && request.path != [];
    }

    method ParseHeaderLine(line: Buffer, request: HttpRequest) returns (ok: bool)
      modifies request.headers
      ensures ok == HeaderLineOk(line)
      ensures ok ==> request.View() == HeaderLineOf(line, old(request.View()))
      ensures !ok ==> request.View() == old(request.View())
    {
      var colon := Find(line, ':');
      if colon == |line| { return false; }
      var key := line[..colon];
      var value := line[colon + 1..];
      while value != [] && (value[0] == ' ' || value[0] == '\t')
        invariant TrimLeft(value) == TrimLeft(line[colon + 1..])
        decreases |value|
      {
        value := value[1..];
      }
      request.headers.Set(key, value);
      return true;
    }

    /** What one line does, state by state. */
    method TakeLine(line: Buffer, ghost readBuffer: ByteVector, request: HttpRequest)
      requires WantsLine(m_state)
      modifies this, request, request.headers
      ensures View(readBuffer, request) == OnLine(old(View(readBuffer, request)), line)
    {
      hide ContentLengthOf, Lookup, Contains, ChunkSizeOf, RequestLineOf, RequestLineOk, HeaderLineOf, HeaderLineOk;
      if m_state == ChunkSize {
        var size := ChunkSizeOf(line);
        if size.None? || size.value > MAX_HTTP_BODY_SIZE || |request.body| + size.value > MAX_HTTP_BODY_SIZE {
          m_state := Error;
        } else if size.value == 0 {
          m_state := Trailers;
        } else {
          m_chunk_remaining := size.value;
          m_state := ChunkData;
        }
      } else if m_state == ChunkCrlf {
        m_state := if line != [] then Error else ChunkSize;
      } else if m_state == Trailers {
        if line == [] {
          m_state := Complete;
        }
      } else if m_state == RequestLine {
        var ok := ParseRequestLine(line, request);
        m_state := if ok then Headers else Error;
      } else if line == [] {
        var te := request.headers.Get("Transfer-Encoding");
        if te.Some? && Contains(te.value, "chunked") {
          m_state := ChunkSize;
        } else if request.headers.GetContentLength() > 0 {
          m_state := Body;
        } else {
          m_state := Complete;
        }
      } else {
        var ok := ParseHeaderLine(line, request);
        if !ok {
          m_state := Error;
        }
      }
    }

    /** One turn of the loop of `parse`. */
    method TakeTurn(readBuffer: ByteVector, request: HttpRequest) returns (paused: bool)
      requires m_state != Complete && m_state != Error
      modifies this, readBuffer, request, request.headers
      ensures Step(old(View(readBuffer, request))) == if paused then Pause else Go(View(readBuffer, request))
      ensures paused ==> View(readBuffer, request) == old(View(readBuffer, request))
    {
      hide LineFrame, BytesFrame, ContentLengthOf, OnLine, NoCrlf, Rank, Framing;
      if m_state == Body {
        var needed := (request.headers.GetContentLength() - |request.body|) % TWO64;
        var status, out := ExtractBytes(readBuffer, needed);
        if status == Incomplete { return true; }
        if status == Success {
          request.body := out;
          m_state := Complete;
        } else {
          m_state := Error;
        }
      } else if m_state == ChunkData {
        var status, chunk := ExtractBytes(readBuffer, m_chunk_remaining);
        if status == Incomplete { return true; }
        if status == Success {
          request.body := request.body + chunk;
          m_state := ChunkCrlf;
        } else {
          m_state := Error;
        }
      } else {
        var status, line := ExtractLine(readBuffer);
        if status == Incomplete { return true; }
        if status == Success {
          TakeLine(line, readBuffer, request);
        } else {
          m_state := Error;
        }
      }
      return false;
    }

    /** The loop of `parse` does to the four objects what `Run` does to the
        value they stand for. */
    method Parse(readBuffer: ByteVector, request: HttpRequest) returns (result: ParseResult)
      modifies this, readBuffer, request, request.headers
      ensures (result, View(readBuffer, request)) == Run(old(View(readBuffer, request)))
    {
      hide Step, Rank;
      ghost var start := View(readBuffer, request);
      while m_state != Complete && m_state != Error
        invariant Run(View(readBuffer, request)) == Run(start)
        decreases |readBuffer.data|, Rank(m_state)
      {
        var paused := TakeTurn(readBuffer, request);
        if paused { return NeedMore; }
      }
      result := if m_state == Complete then Parsed else Bad;
    }
  }
}
