/** The two primitives that take bytes off the read buffer. */
module Framer {
  import opened Bytes

  const MAX_HTTP_HEADER_SIZE: nat := 8 * 1024
  const MAX_HTTP_BODY_SIZE: nat := 10 * 1024 * 1024
  const MAX_CHUNK_BODY_SIZE: nat := 64 * 1024

  datatype FrameStatus = Success | Incomplete | HeaderTooLarge | PayloadTooLarge

  /** What a primitive hands out, and what it leaves in the buffer. */
  datatype Frame = Frame(status: FrameStatus, out: Buffer, rest: Buffer)

  function LineFrame(b: Buffer): (f: Frame)
    ensures f.status == Success ==> b == f.out + CRLF + f.rest && NoCrlf(f.out)
    ensures f.status == Success ==> |f.out| <= MAX_CHUNK_BODY_SIZE
    ensures f.status != Success ==> f.out == [] && f.rest == b
    ensures f.status != PayloadTooLarge
  {
    var p := FirstCrlf(b);
    if p < |b| && p <= MAX_CHUNK_BODY_SIZE then
      assert forall i :: 0 <= i < p ==> CrlfAt(b[..p], i) ==> CrlfAt(b, i);
      Frame(Success, b[..p], b[p + 2..])
    else if |b| > MAX_HTTP_HEADER_SIZE then Frame(HeaderTooLarge, [], b)
    else Frame(Incomplete, [], b)
  }

  function BytesFrame(b: Buffer, required: nat): (f: Frame)
    ensures f.status == Success ==> b == f.out + f.rest && |f.out| == required <= MAX_HTTP_BODY_SIZE
    ensures f.status != Success ==> f.out == [] && f.rest == b
    ensures f.status != HeaderTooLarge
  {
    if required > MAX_HTTP_BODY_SIZE then Frame(PayloadTooLarge, [], b)
    else if |b| < required then Frame(Incomplete, [], b)
    else if required == 0 then Frame(Success, [], b)
    else Frame(Success, b[..required], b[required..])
  }

  method ExtractLine(readBuffer: ByteVector) returns (status: FrameStatus, outLine: Buffer)
    modifies readBuffer
    ensures Frame(status, outLine, readBuffer.data) == LineFrame(old(readBuffer.data))
  {
    outLine := [];
    if readBuffer.data == [] {
      return Incomplete, outLine;
    }
    ghost var b := readBuffer.data;
    var i := 0;
    while i < |readBuffer.data|
      invariant 0 <= i <= |b| && readBuffer.data == b && outLine == []
      invariant i <= MAX_CHUNK_BODY_SIZE + 1
      invariant forall j :: 0 <= j < i ==> !CrlfAt(b, j)
    {
      if i > MAX_CHUNK_BODY_SIZE {
        return HeaderTooLarge, outLine;
      }
      if i + 1 < |readBuffer.data| && readBuffer.data[i] == '\r' && readBuffer.data[i + 1] == '\n' {
        FirstCrlfIs(b, i);
        outLine := readBuffer.data[..i];
        readBuffer.data := readBuffer.data[i + 2..];
        return Success, outLine;
      }
      i := i + 1;
    }
    assert FirstCrlf(b) == |b|;
    if |readBuffer.data| > MAX_HTTP_HEADER_SIZE {
      return HeaderTooLarge, outLine;
    }
    return Incomplete, outLine;
  }

  method ExtractBytes(readBuffer: ByteVector, requiredBytes: nat) returns (status: FrameStatus, outBytes: Buffer)
    modifies readBuffer
    ensures Frame(status, outBytes, readBuffer.data) == BytesFrame(old(readBuffer.data), requiredBytes)
  {
    outBytes := [];
    if requiredBytes > MAX_HTTP_BODY_SIZE {
      return PayloadTooLarge, outBytes;
    }
    if |readBuffer.data| < requiredBytes {
      return Incomplete, outBytes;
    }
    outBytes := readBuffer.data[..requiredBytes];
    readBuffer.data := readBuffer.data[requiredBytes..];
    return Success, outBytes;
  }

  /** A request for a line whose answer depends on how the bytes arrive: the
      line is within the scan limit, but a prefix of it is over the limit for a
      buffer without CR LF. */
  predicate Contested(b: Buffer) {
    FirstCrlf(b) < |b| && MAX_HTTP_HEADER_SIZE <= FirstCrlf(b) <= MAX_CHUNK_BODY_SIZE
  }

  /** More bytes never change a line that was delivered; they change a refusal
      only when the line was contested. */
  lemma LineFrameAppend(b: Buffer, c: Buffer)
    ensures LineFrame(b).status == Success ==>
              LineFrame(b + c) == LineFrame(b).(rest := LineFrame(b).rest + c)
    ensures LineFrame(b).status == HeaderTooLarge ==>
              LineFrame(b + c).status == HeaderTooLarge || Contested(b + c)
    ensures Contested(b) ==> Contested(b + c)
  {
    FirstCrlfAppend(b, c);
    var p := FirstCrlf(b);
    if p < |b| && p <= MAX_CHUNK_BODY_SIZE {
      assert (b + c)[..p] == b[..p];
      assert (b + c)[p + 2..] == b[p + 2..] + c;
    }
  }

  /** A contested line is refused if the first part that arrives is the one
      byte too many. */
  lemma ContestedRefused(b: Buffer)
    requires Contested(b)
    ensures LineFrame(b).status == Success
    ensures LineFrame(b[..MAX_HTTP_HEADER_SIZE + 1]).status == HeaderTooLarge
  {
    var a := b[..MAX_HTTP_HEADER_SIZE + 1];
    assert forall i :: 0 <= i < |a| ==> CrlfAt(a, i) ==> CrlfAt(b, i);
  }

  lemma BytesFrameAppend(b: Buffer, c: Buffer, required: nat)
    ensures BytesFrame(b, required).status == Success ==>
              BytesFrame(b + c, required) == BytesFrame(b, required).(rest := BytesFrame(b, required).rest + c)
    ensures BytesFrame(b, required).status == PayloadTooLarge ==>
              BytesFrame(b + c, required).status == PayloadTooLarge
  {
    if BytesFrame(b, required).status == Success {
      assert (b + c)[..required] == b[..required];
      assert (b + c)[required..] == b[required..] + c;
    }
  }

  /** A line within the scan limit that is followed by CR LF is delivered. */
  lemma LineFrameOfLine(line: Buffer, rest: Buffer)
    requires NoCrlf(line) && |line| <= MAX_CHUNK_BODY_SIZE
    ensures LineFrame(line + CRLF + rest) == Frame(Success, line, rest)
  {
    FirstCrlfOfLine(line, rest);
    var b := line + CRLF + rest;
    assert b[..|line|] == line;
    assert b[|line| + 2..] == rest;
  }
}
