/** The encoder: a response as bytes on the wire. */
module HttpResponseEncoder {
  import opened Bytes
  import opened Numerals
  import opened HttpHeaders
  import opened HttpResponse

  const MAX_CHUNK_SIZE: nat := 64 * 1024

  /** The response after `set_response_header`. */
  function WithFraming(r: Response): Response {
    if |r.body| > MAX_CHUNK_SIZE then
      r.(bodyType := CHUNKED,
         headers := Stored(Deleted(r.headers, "Content-Length"), "Transfer-Encoding", "chunked"))
    else if |r.body| == 0 then
      r.(headers := Stored(r.headers, "Content-Length", "0"))
    else
      r.(bodyType := CONTENT_LENGTH,
         headers := Stored(Deleted(r.headers, "Transfer-Encoding"), "Content-Length", Show(|r.body|, 10)))
  }

  function StatusLine(r: Response): Buffer {
    "HTTP/1.1 " + Show(r.code, 10) + " " + r.message + CRLF
  }

  /** An order in which the unordered map may be walked: every key once. */
  ghost predicate IsOrder(order: seq<Buffer>, headers: HeaderMap) {
    && (forall k :: k in order <==> k in headers)
    && (forall i, j :: 0 <= i < j < |order| ==> order[i] != order[j])
  }

  function HeaderLine(key: Buffer, value: Buffer): Buffer {
    key + ": " + value + CRLF
  }

  /** The header lines in the given order, and the empty line. */
  function HeaderBlock(order: seq<Buffer>, headers: HeaderMap): Buffer
    requires forall k :: k in order ==> k in headers
  {
    if order == [] then CRLF else HeaderLine(order[0], headers[order[0]]) + HeaderBlock(order[1..], headers)
  }

  function Min(a: nat, b: nat): nat {
    if a < b then a else b
  }

  /** One chunk: its size, in hexadecimal, and its data. */
  function ChunkBlock(piece: Buffer): Buffer {
    (Show(|piece|, 16) + CRLF) + (piece + CRLF)
  }

  /** The chunks of a body and the last chunk. */
  function ChunkLoop(body: Buffer): Buffer
    decreases |body|
  {
    if body == [] then "0\r\n\r\n"
    else
      var n := Min(MAX_CHUNK_SIZE, |body|);
      ChunkBlock(body[..n]) + ChunkLoop(body[n..])
  }

  function BodyPart(r: Response): Buffer {
    if r.bodyType == CONTENT_LENGTH then r.body else ChunkLoop(r.body)
  }

  /** Everything after the status line. */
  function Tail(r: Response, order: seq<Buffer>, isHead: bool): Buffer
    requires IsOrder(order, r.headers)
  {
    HeaderBlock(order, r.headers) + if isHead then [] else BodyPart(r)
  }

  method SetResponseHeader(res: HttpResponse)
    modifies res, res.headers
    ensures res.View() == WithFraming(old(res.View()))
  {
    var size := |res.body|;
    if size > MAX_CHUNK_SIZE {
      res.body_type := CHUNKED;
      res.headers.Del("Content-Length");
      res.headers.Set("Transfer-Encoding", "chunked");
    } else if size == 0 {
      res.headers.Set("Content-Length", "0");
    } else {
      res.body_type := CONTENT_LENGTH;
      res.headers.Del("Transfer-Encoding");
      res.headers.Set("Content-Length", Show(size, 10));
    }
  }

  lemma HeaderBlockSnoc(order: seq<Buffer>, key: Buffer, headers: HeaderMap) returns (lines: Buffer)
    requires key in headers && forall k :: k in order ==> k in headers
    ensures HeaderBlock(order, headers) == lines + CRLF
    ensures HeaderBlock(order + [key], headers) == lines + HeaderLine(key, headers[key]) + CRLF
  {
    hide HeaderLine;
    if order == [] {
      lines := [];
      assert (order + [key])[1..] == [];
    } else {
      var rest := HeaderBlockSnoc(order[1..], key, headers);
      lines := HeaderLine(order[0], headers[order[0]]) + rest;
      assert (order + [key])[1..] == order[1..] + [key];
    }
  }

  /** The header loop, for the order in which the map is walked. */
  method EncodeHeaders(headers: HeaderMap, order: seq<Buffer>) returns (out: Buffer)
    requires IsOrder(order, headers)
    ensures out == HeaderBlock(order, headers)
  {
    out := [];
    for i := 0 to |order|
      invariant out + CRLF == HeaderBlock(order[..i], headers)
    {
      ghost var lines := HeaderBlockSnoc(order[..i], order[i], headers);
      assert out == lines by {
        assert (out + CRLF)[..|out|] == out && (lines + CRLF)[..|lines|] == lines;
      }
      assert order[..i + 1] == order[..i] + [order[i]];
      out := out + HeaderLine(order[i], headers[order[i]]);
    }
    assert order[..|order|] == order;
    out := out + CRLF;
  }

  /** The chunk loop: an offset that advances by at most 64 KB. */
  method EncodeChunks(body: Buffer) returns (out: Buffer)
    ensures out == ChunkLoop(body)
  {
    hide ChunkBlock;
    out := [];
    var offset := 0;
    ghost var rest := body;
    while offset < |body|
      invariant 0 <= offset <= |body| && |rest| == |body| - offset
      invariant forall i :: 0 <= i < |rest| ==> rest[i] == body[offset + i]
      invariant out + ChunkLoop(rest) == ChunkLoop(body)
    {
      var n := Min(MAX_CHUNK_SIZE, |body| - offset);
      var piece := body[offset..offset + n];
      assert piece == rest[..n];
      assert out + ChunkLoop(rest) == (out + ChunkBlock(piece)) + ChunkLoop(rest[n..]);
      rest := rest[n..];
      out := out + ChunkBlock(piece);
      offset := offset + n;
    }
    assert rest == [];
    out := out + "0\r\n\r\n";
  }

  method Encode(response: HttpResponse, isHead: bool, order: seq<Buffer>) returns (wire: Buffer)
    requires IsOrder(order, WithFraming(response.View()).headers)
    modifies response, response.headers
    ensures response.View() == WithFraming(old(response.View()))
    ensures wire == StatusLine(old(response.View())) + Tail(response.View(), order, isHead)
  {
    hide HeaderBlock, ChunkLoop, IsOrder, StatusLine;
    var statusLine := StatusLine(response.View());
    SetResponseHeader(response);
    var block := EncodeHeaders(response.headers.m_headers, order);
    var bodyPart := [];
    if !isHead {
      if response.body_type == CONTENT_LENGTH {
        bodyPart := response.body;
      } else {
        bodyPart := EncodeChunks(response.body);
      }
    }
    wire := statusLine + (block + bodyPart);
  }
}
