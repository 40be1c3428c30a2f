/** What `parse` keeps, and how it depends on the way the bytes arrive. */
module ParserLaws {
  import opened Bytes
  import opened Numerals
  import opened HttpHeaders
  import opened HttpRequest
  import opened Framer
  import opened HttpRequestParser

  // ---------------------------------------------------------------- invariant

  /** What holds of a parser between any two turns, when the request was reset
      before the first. */
  ghost predicate WellFormed(m: Machine) {
    var framing := Framing(m.req.headers);
    && |m.req.body| <= MAX_HTTP_BODY_SIZE
    && (m.state == RequestLine || m.state == Headers || m.state == Body ==> m.req.body == [])
    && (m.state == Body ==> framing == Body)
    && (m.state == ChunkSize || m.state == ChunkData || m.state == ChunkCrlf || m.state == Trailers ==>
          framing == ChunkSize)
    && (m.state == ChunkData ==> 0 < m.remaining && |m.req.body| + m.remaining <= MAX_HTTP_BODY_SIZE)
    && (m.state == Complete ==> framing == ChunkSize || |m.req.body| == ContentLengthOf(m.req.headers))
  }

  /** The parser and request after `reset`. */
  function Fresh(buf: Buffer): (m: Machine)
    ensures WellFormed(m)
  {
    Machine(RequestLine, 0, EmptyRequest, buf)
  }

  lemma OnLineKeeps(m: Machine, line: Buffer)
    requires WantsLine(m.state) && WellFormed(m)
    ensures WellFormed(OnLine(m, line))
  {
    hide ContentLengthOf, Lookup, Contains, ChunkSizeOf;
    assert Framing(m.req.headers) == Complete ==> ContentLengthOf(m.req.headers) == 0;
    assert Framing(m.req.headers) in {Body, ChunkSize, Complete};
  }

  lemma StepKeeps(m: Machine)
    requires m.state != Complete && m.state != Error && WellFormed(m)
    ensures Step(m).Go? ==> WellFormed(Step(m).next)
  {
    hide ContentLengthOf, Lookup, Contains, LineFrame, BytesFrame, OnLine;
    if WantsLine(m.state) {
      OnLineKeeps(m.(buf := LineFrame(m.buf).rest), LineFrame(m.buf).out);
    } else if m.state == Body {
      assert BytesNeeded(m) <= MAX_HTTP_BODY_SIZE ==> BytesNeeded(m) == ContentLengthOf(m.req.headers) by {
        ContentLengthFits(m.req.headers);
      }
    }
  }

  lemma ContentLengthFits(headers: HeaderMap)
    ensures ContentLengthOf(headers) < TWO64
  {
  }

  /** The invariant survives every call of `parse`; in particular a request
      that is framed by Content-Length is delivered with a body of exactly the
      declared length. */
  lemma {:induction false} RunKeeps(m: Machine)
    requires WellFormed(m)
    ensures WellFormed(Run(m).1)
    ensures Run(m).0 == Parsed && Framing(Run(m).1.req.headers) != ChunkSize ==>
              |Run(m).1.req.body| == ContentLengthOf(Run(m).1.req.headers)
    decreases |m.buf|, Rank(m.state)
  {
    hide Framing, ContentLengthOf, Step;
    if m.state != Complete && m.state != Error && Step(m).Go? {
      StepKeeps(m);
      RunKeeps(Step(m).next);
    }
  }

  /** The bytes of `t` are the last ones of `b`. */
  ghost predicate IsTail(t: Buffer, b: Buffer) {
    |t| <= |b| && b == b[..|b| - |t|] + t
  }

  lemma IsTailAfter(taken: Buffer, t: Buffer)
    ensures IsTail(t, taken + t)
  {
    assert (taken + t)[..|taken|] == taken;
  }

  lemma IsTailSelf(b: Buffer)
    ensures IsTail(b, b)
  {
    IsTailAfter([], b);
    assert [] + b == b;
  }

  lemma IsTailTrans(a: Buffer, b: Buffer, c: Buffer)
    requires IsTail(a, b) && IsTail(b, c)
    ensures IsTail(a, c)
  {
    var p, q := b[..|b| - |a|], c[..|c| - |b|];
    assert c == (q + p) + a;
    IsTailAfter(q + p, a);
  }

  lemma StepTail(m: Machine)
    requires m.state != Complete && m.state != Error
    ensures Step(m).Go? ==> IsTail(Step(m).next.buf, m.buf)
  {
    hide LineFrame, BytesFrame, OnLine, BytesNeeded, IsTail;
    if m.state == Body {
      var f := BytesFrame(m.buf, BytesNeeded(m));
      IsTailAfter(f.out, f.rest);
    } else if m.state == ChunkData {
      var f := BytesFrame(m.buf, m.remaining);
      IsTailAfter(f.out, f.rest);
    } else {
      var f := LineFrame(m.buf);
      IsTailAfter(f.out + CRLF, f.rest);
    }
    IsTailSelf(m.buf);
  }

  /** Nothing is invented or reordered: what `parse` leaves is the end of what
      it was given. */
  lemma {:induction false} RunTail(m: Machine)
    ensures IsTail(Run(m).1.buf, m.buf)
    decreases |m.buf|, Rank(m.state)
  {
    hide Step, IsTail;
    if m.state != Complete && m.state != Error && Step(m).Go? {
      StepTail(m);
      RunTail(Step(m).next);
      IsTailTrans(Run(m).1.buf, Step(m).next.buf, m.buf);
    } else {
      IsTailSelf(m.buf);
    }
  }

  // --------------------------------------------------------------- resumption

  /** `m` with the bytes `c` appended to its buffer. */
  function Fed(m: Machine, c: Buffer): Machine {
    m.(buf := m.buf + c)
  }

  /** The next turn refuses a line for its length. */
  predicate Refuses(m: Machine) {
    WantsLine(m.state) && LineFrame(m.buf).status == HeaderTooLarge
  }

  /** A turn that goes on, for any reason but the length of a line, goes on in
      the same way when more bytes have arrived. */
  lemma StepFed(m: Machine, c: Buffer)
    requires m.state != Complete && m.state != Error && Step(m).Go? && !Refuses(m)
    ensures Step(Fed(m, c)) == Go(Fed(Step(m).next, c))
  {
    hide LineFrame, BytesFrame, OnLine, ContentLengthOf;
    if WantsLine(m.state) {
      LineFrameAppend(m.buf, c);
      OnLineFed(m.(buf := LineFrame(m.buf).rest), LineFrame(m.buf).out, c);
    } else if m.state == Body {
      BytesFrameAppend(m.buf, c, BytesNeeded(m));
    } else {
      BytesFrameAppend(m.buf, c, m.remaining);
    }
  }

  lemma OnLineFed(m: Machine, line: Buffer, c: Buffer)
    requires WantsLine(m.state)
    ensures OnLine(Fed(m, c), line) == Fed(OnLine(m, line), c)
  {
    hide Framing, ChunkSizeOf, RequestLineOf, RequestLineOk, HeaderLineOf, HeaderLineOk;
  }

  /** Resuming, with no assumption on lines: if `parse` asks for more, going on
      from where it stopped is the same as starting over with all the bytes; if
      it delivers a request, later bytes neither change the request nor get
      lost. So the way bytes arrive can never turn a refusal into a request, or
      one request into another. */
  lemma {:induction false} Resume(m: Machine, c: Buffer)
    ensures Run(m).0 == NeedMore ==> Run(Fed(m, c)) == Run(Fed(Run(m).1, c))
    ensures Run(m).0 == Parsed ==> Run(Fed(m, c)) == (Parsed, Fed(Run(m).1, c))
    decreases |m.buf|, Rank(m.state)
  {
    hide Step;
    if m.state != Complete && m.state != Error && Step(m).Go? {
      if Refuses(m) {
        RefusesIsBad(m);
      } else {
        StepFed(m, c);
        Resume(Step(m).next, c);
      }
    }
  }

  lemma RefusesIsBad(m: Machine)
    requires Refuses(m)
    ensures Step(m) == Go(m.(state := Error)) && Run(m) == (Bad, m.(state := Error))
  {
    hide LineFrame, OnLine;
  }

  /** No line that is asked for on the way is contested, that is, of a length
      from 8192 to 65536. */
  ghost predicate Tame(m: Machine)
    decreases |m.buf|, Rank(m.state)
  {
    if m.state == Complete || m.state == Error then true
    else
      && (WantsLine(m.state) ==> !Contested(m.buf))
      && (Step(m).Go? ==> Tame(Step(m).next))
  }

  /** Without contested lines a refusal is final, too. */
  lemma {:induction false} ResumeBad(m: Machine, c: Buffer)
    requires Run(m).0 == Bad
    requires Tame(Fed(m, c)) || Run(Fed(m, c)).0 == Bad
    ensures Run(Fed(m, c)).0 == Bad
    decreases |m.buf|, Rank(m.state)
  {
    hide Step;
    if m.state != Complete && m.state != Error {
      if Refuses(m) {
        if Tame(Fed(m, c)) {
          LineFrameAppend(m.buf, c);
          RefusesIsBad(Fed(m, c));
        }
      } else {
        StepFed(m, c);
        ResumeBad(Step(m).next, c);
      }
    }
  }

  lemma {:induction false} TameResumed(m: Machine, c: Buffer)
    requires Run(m).0 == NeedMore && Tame(Fed(m, c))
    ensures Tame(Fed(Run(m).1, c))
    decreases |m.buf|, Rank(m.state)
  {
    hide Step;
    if Step(m).Go? {
      if Refuses(m) {
        RefusesIsBad(m);
      } else {
        StepFed(m, c);
        TameResumed(Step(m).next, c);
      }
    }
  }

  /** A contested line on the way to an answer gives a way to deliver the same
      bytes that is refused: stop one byte past the limit. */
  lemma {:induction false} UntameSplit(m: Machine) returns (a: Buffer, c: Buffer)
    requires !Tame(m)
    ensures m.buf == a + c && a != [] && Run(m.(buf := a)).0 == Bad
    decreases |m.buf|, Rank(m.state)
  {
    hide Step, LineFrame, Run, FirstCrlf;
    if WantsLine(m.state) && Contested(m.buf) {
      ContestedRefused(m.buf);
      a, c := m.buf[..MAX_HTTP_HEADER_SIZE + 1], m.buf[MAX_HTTP_HEADER_SIZE + 1..];
      RefusesIsBad(m.(buf := a));
    } else {
      assert !Refuses(m) by {
        if Refuses(m) {
          RefusesIsBad(m);
        }
      }
      var a', c' := UntameSplit(Step(m).next);
      a, c := SplitLift(m, a', c');
    }
  }

  lemma SplitLift(m: Machine, a': Buffer, c': Buffer) returns (a: Buffer, c: Buffer)
    requires m.state != Complete && m.state != Error && Step(m).Go? && !Refuses(m)
    requires Step(m).next.buf == a' + c' && Step(m).next.state != Error
    requires a' != [] && Run(Step(m).next.(buf := a')).0 == Bad
    ensures m.buf == a + c && a != [] && Run(m.(buf := a)).0 == Bad
  {
    hide Step, LineFrame, Run, Refuses;
    var taken := StepShorter(m, a', c');
    a, c := taken + a', c';
    assert taken + (a' + c') == (taken + a') + c';
    RunStep(m.(buf := a), Step(m).next.(buf := a'));
  }

  lemma RunStep(m: Machine, n: Machine)
    requires m.state != Complete && m.state != Error && Step(m) == Go(n)
    ensures Run(m) == Run(n)
  {
    hide Step;
  }

  /** A turn that does not look past what it takes is the same turn when the
      buffer ends earlier. */
  lemma StepShorter(m: Machine, a: Buffer, c: Buffer) returns (taken: Buffer)
    requires m.state != Complete && m.state != Error && Step(m).Go? && !Refuses(m)
    requires Step(m).next.buf == a + c
    requires Step(m).next.state != Error
    ensures m.buf == taken + (a + c)
    ensures Step(m.(buf := taken + a)) == Go(Step(m).next.(buf := a))
  {
    hide LineFrame, BytesFrame, OnLine, ContentLengthOf;
    var n := Step(m).next;
    if WantsLine(m.state) {
      var line := LineFrame(m.buf).out;
      taken := line + CRLF;
      LineFrameOfLine(line, a);
      OnLineAnyBuffer(m, line, a + c, a);
    } else {
      var required := if m.state == Body then BytesNeeded(m) else m.remaining;
      taken := BytesFrame(m.buf, required).out;
      BytesFrameOf(taken, a);
    }
  }

  lemma OnLineAnyBuffer(m: Machine, line: Buffer, x: Buffer, y: Buffer)
    requires WantsLine(m.state)
    ensures OnLine(m.(buf := y), line) == OnLine(m.(buf := x), line).(buf := y)
  {
    hide Framing, ChunkSizeOf, RequestLineOf, RequestLineOk, HeaderLineOf, HeaderLineOk;
  }

  lemma BytesFrameOf(out: Buffer, rest: Buffer)
    requires |out| <= MAX_HTTP_BODY_SIZE
    ensures BytesFrame(out + rest, |out|) == Frame(Success, out, rest)
  {
    if |out| > 0 {
      assert (out + rest)[..|out|] == out;
      assert (out + rest)[|out|..] == rest;
    } else {
      assert out + rest == rest;
    }
  }

  /** One message, exactly: however its bytes are cut in two, the first part
      followed by the second gives what the whole gives, if and only if no line
      asked for is contested or the whole is refused anyway. */
  lemma SplitIndependentExactly(m: Machine)
    ensures Tame(m) || Run(m).0 == Bad <==>
            forall a, c :: m.buf == a + c ==> SameAnswer(m, a, c)
  {
    if Tame(m) || Run(m).0 == Bad {
      forall a, c | m.buf == a + c
        ensures SameAnswer(m, a, c)
      {
        var p := m.(buf := a);
        assert Fed(p, c) == m;
        Resume(p, c);
        if Run(p).0 == Bad {
          ResumeBad(p, c);
        }
      }
    } else {
      var a, c := UntameSplit(m);
      assert !SameAnswer(m, a, c);
    }
  }

  /** Feeding `a` and then `c` gives what feeding both at once gives; of a
      refusal only the refusal counts, as the connection is closed. */
  ghost predicate SameAnswer(m: Machine, a: Buffer, c: Buffer) {
    var first := Run(m.(buf := a));
    match first.0
    case NeedMore => Run(Fed(first.1, c)) == Run(m)
    case Parsed => Run(m) == (Parsed, Fed(first.1, c))
    case Bad => Run(m).0 == Bad
  }
}
