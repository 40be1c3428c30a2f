/** The parse loop of a read task, and what a client gets for the bytes it
    sends, however TCP cuts them into pieces. */
module Session {
  import opened Bytes
  import opened HttpRequest
  import opened Framer
  import opened HttpRequestParser
  import opened ParserLaws

  /** A read task parses at most this many requests before it makes way. */
  const MAX_REQUESTS_PER_PASS: nat := 51

  datatype Reply = Answer(req: Request) | TooManyRequests | BadRequest

  /** What becomes of the connection after a request was parsed. */
  datatype Verdict = KeepOpen | CloseAfter | Limited

  /** The rate limiter, the router and the handlers, as the n-th request of a
      connection meets them. */
  type Policy = (nat, Request) -> Verdict

  /** A connection: the parser with its buffer, and the replies so far; or
      closed, when the rest of the buffer no longer matters. */
  datatype Session = Open(m: Machine, replies: seq<Reply>) | Closed(replies: seq<Reply>)

  /** One turn of the loop, and whether the loop goes on. */
  function One(policy: Policy, s: Session): (r: (Session, bool))
    requires s.Open?
    ensures r.1 ==> r.0.Open?
  {
    var r := Run(s.m);
    match r.0
    case NeedMore => (Open(r.1, s.replies), false)
    case Bad => (Closed(s.replies + [BadRequest]), false)
    case Parsed =>
      match policy(|s.replies|, r.1.req)
      case Limited => (Closed(s.replies + [TooManyRequests]), false)
      case CloseAfter => (Closed(s.replies + [Answer(r.1.req)]), false)
      case KeepOpen => (Open(Fresh(r.1.buf), s.replies + [Answer(r.1.req)]), true)
  }

  predicate Idle(s: Session) {
    s.Closed? || s.m.buf == []
  }

  /** The parse loop, cut after `n` requests. */
  function Pass(policy: Policy, s: Session, n: nat): Session
    decreases n
  {
    if Idle(s) || n == 0 then s
    else
      var (t, go) := One(policy, s);
      if go then Pass(policy, t, n - 1) else t
  }

  function Age(m: Machine): nat {
    if m.state == RequestLine then 0 else 1
  }

  /** The parse loop without the cut. */
  function Finish(policy: Policy, s: Session): Session
    decreases if s.Open? then |s.m.buf| else 0, if s.Open? then Age(s.m) else 0
  {
    if Idle(s) then s
    else
      var (t, go) := One(policy, s);
      if go then Finish(policy, t) else t
  }

  /** More bytes arrive. */
  function Receive(s: Session, c: Buffer): Session {
    match s
    case Open(m, replies) => Open(Fed(m, c), replies)
    case Closed(_) => s
  }

  /** Read tasks, each with the bytes it finds; a task that was cut is followed
      by another, which may find nothing new. */
  function Serve(policy: Policy, s: Session, batches: seq<Buffer>): Session
    decreases |batches|
  {
    if batches == [] then s
    else Serve(policy, Pass(policy, Receive(s, batches[0]), MAX_REQUESTS_PER_PASS), batches[1..])
  }

  /** No request before the first refused one needs a line of 8192 to 65536
      bytes. */
  ghost predicate TameSession(policy: Policy, s: Session)
    decreases if s.Open? then |s.m.buf| else 0, if s.Open? then Age(s.m) else 0
  {
    Idle(s) ||
    (&& (Tame(s.m) || Run(s.m).0 == Bad)
     && (One(policy, s).1 ==> TameSession(policy, One(policy, s).0)))
  }

  /** Replies are only ever added. */
  lemma {:induction false} FinishExtends(policy: Policy, s: Session)
    ensures s.replies <= Finish(policy, s).replies
    decreases if s.Open? then |s.m.buf| else 0, if s.Open? then Age(s.m) else 0
  {
    hide Run;
    if !Idle(s) && One(policy, s).1 {
      FinishExtends(policy, One(policy, s).0);
    }
  }

  /** A connection that has been served to the end stays as it is. */
  lemma {:induction false} FinishIsDone(policy: Policy, s: Session)
    ensures Finish(policy, Finish(policy, s)) == Finish(policy, s)
    decreases if s.Open? then |s.m.buf| else 0, if s.Open? then Age(s.m) else 0
  {
    if !Idle(s) {
      if One(policy, s).1 {
        FinishIsDone(policy, One(policy, s).0);
      } else if Run(s.m).0 == NeedMore {
        Resume(s.m, []);
        assert Fed(s.m, []) == s.m && Fed(Run(s.m).1, []) == Run(s.m).1;
      }
    }
  }

  lemma {:induction false} PassExtends(policy: Policy, s: Session, n: nat)
    ensures s.replies <= Pass(policy, s, n).replies
    decreases n
  {
    hide Run;
    if !Idle(s) && n > 0 && One(policy, s).1 {
      PassExtends(policy, One(policy, s).0, n - 1);
    }
  }

  lemma {:induction false} FinishPass(policy: Policy, s: Session, n: nat)
    ensures Finish(policy, Pass(policy, s, n)) == Finish(policy, s)
    decreases n
  {
    hide Run;
    if !Idle(s) && n > 0 {
      if One(policy, s).1 {
        FinishPass(policy, One(policy, s).0, n - 1);
      } else {
        FinishIsDone(policy, s);
      }
    }
  }

  /** A pass that was not cut has done everything there is to do. */
  lemma {:induction false} UncutIsFinished(policy: Policy, s: Session, n: nat)
    requires |Pass(policy, s, n).replies| < |s.replies| + n
    ensures Pass(policy, s, n) == Finish(policy, s)
    decreases n
  {
    hide Run;
    if !Idle(s) && One(policy, s).1 {
      UncutIsFinished(policy, One(policy, s).0, n - 1);
    }
  }

  // ------------------------------------------------- independence of the cuts

  lemma FinishOne(policy: Policy, s: Session)
    requires s.Open? && s.m.buf != []
    ensures Finish(policy, s) == if One(policy, s).1 then Finish(policy, One(policy, s).0) else One(policy, s).0
    ensures TameSession(policy, s) <==>
            (Tame(s.m) || Run(s.m).0 == Bad) && (One(policy, s).1 ==> TameSession(policy, One(policy, s).0))
  {
    hide One, Run;
  }

  /** When the parser waits, it does not matter whether it saw the first bytes
      on their own. */
  lemma WaitFed(policy: Policy, s: Session, c: Buffer)
    requires s.Open? && s.m.buf != [] && Run(s.m).0 == NeedMore
    ensures Finish(policy, Receive(One(policy, s).0, c)) == Finish(policy, Receive(s, c))
    ensures TameSession(policy, Receive(s, c)) ==> TameSession(policy, Receive(One(policy, s).0, c))
  {
    hide Run, Tame;
    var t := One(policy, s).0;
    Resume(s.m, c);
    assert One(policy, Receive(t, c)) == One(policy, Receive(s, c));
    FinishOne(policy, Receive(s, c));
    if Receive(t, c).m.buf == [] {
      assert Fed(s.m, c) == s.m && Fed(t.m, c) == t.m;
    } else {
      FinishOne(policy, Receive(t, c));
      if Tame(Fed(s.m, c)) {
        TameResumed(s.m, c);
      }
    }
  }

  lemma OneFed(policy: Policy, s: Session, c: Buffer)
    requires s.Open? && Run(s.m).0 == Parsed
    ensures One(policy, Receive(s, c)) == (Receive(One(policy, s).0, c), One(policy, s).1)
  {
    Resume(s.m, c);
  }

  lemma {:induction false} PassFed(policy: Policy, s: Session, n: nat, c: Buffer)
    requires TameSession(policy, Receive(s, c))
    ensures Finish(policy, Receive(Pass(policy, s, n), c)) == Finish(policy, Receive(s, c))
    ensures TameSession(policy, Receive(Pass(policy, s, n), c))
    decreases n
  {
    hide Run, Finish, TameSession;
    if !Idle(s) && n > 0 {
      FinishOne(policy, Receive(s, c));
      match Run(s.m).0
      case NeedMore =>
        WaitFed(policy, s, c);
      case Bad =>
        ResumeBad(s.m, c);
        ClosedIsDone(policy, One(policy, s).0);
      case Parsed =>
        OneFed(policy, s, c);
        if One(policy, s).1 {
          PassFed(policy, One(policy, s).0, n - 1, c);
        } else {
          ClosedIsDone(policy, One(policy, s).0);
        }
    }
  }

  lemma ClosedIsDone(policy: Policy, s: Session)
    requires s.Closed?
    ensures Finish(policy, s) == s && TameSession(policy, s)
  {
  }

  lemma ReceiveTwice(s: Session, a: Buffer, b: Buffer)
    ensures Receive(Receive(s, a), b) == Receive(s, a + b)
  {
    if s.Open? {
      assert (s.m.buf + a) + b == s.m.buf + (a + b);
    }
  }

  /** Bytes that were served in pieces before the last ones came do not change
      what serving all of them in one piece gives in the end. */
  lemma {:induction false} ServedBefore(policy: Policy, s: Session, batches: seq<Buffer>, last: Buffer)
    requires TameSession(policy, Receive(s, ConcatAll(batches) + last))
    ensures Finish(policy, Receive(Serve(policy, s, batches), last)) ==
            Finish(policy, Receive(s, ConcatAll(batches) + last))
    decreases |batches|
  {
    hide Pass, Finish, TameSession;
    if batches == [] {
      assert ConcatAll(batches) + last == last;
    } else {
      var first := Receive(s, batches[0]);
      var rest := ConcatAll(batches[1..]) + last;
      assert ConcatAll(batches) + last == batches[0] + rest;
      ReceiveTwice(s, batches[0], rest);
      PassFed(policy, first, MAX_REQUESTS_PER_PASS, rest);
      ServedBefore(policy, Pass(policy, first, MAX_REQUESTS_PER_PASS), batches[1..], last);
    }
  }

  /** Split independence: however the bytes are divided among read tasks, and
      wherever the cut after 51 requests falls, serving to the end gives the
      same replies, leftover bytes and parser state as one pass over the whole
      stream. */
  lemma SplitIndependent(policy: Policy, s: Session, batches: seq<Buffer>)
    requires TameSession(policy, Receive(s, ConcatAll(batches)))
    ensures Finish(policy, Serve(policy, s, batches)) == Finish(policy, Receive(s, ConcatAll(batches)))
  {
    hide Finish, TameSession, Serve, ConcatAll;
    assert ConcatAll(batches) + [] == ConcatAll(batches);
    ServedBefore(policy, s, batches, []);
    ReceiveNothing(Serve(policy, s, batches));
  }

  lemma ReceiveNothing(s: Session)
    ensures Receive(s, []) == s
  {
    if s.Open? {
      assert s.m.buf + [] == s.m.buf;
    }
  }

  // ------------------------------------------------------ without assumptions

  /** `f` gave up with a 400 where `w` went on, and agrees with it until then. */
  ghost predicate GaveUp(f: Session, w: Session) {
    && f.Closed? && |f.replies| > 0 && f.replies[|f.replies| - 1] == BadRequest
    && f.replies[..|f.replies| - 1] <= w.replies
  }

  lemma {:induction false} PassFedAnyway(policy: Policy, s: Session, n: nat, c: Buffer)
    ensures var t := Pass(policy, s, n);
            || Finish(policy, Receive(t, c)) == Finish(policy, Receive(s, c))
            || GaveUp(t, Finish(policy, Receive(s, c)))
    decreases n
  {
    hide Run, Finish, TameSession;
    if !Idle(s) && n > 0 {
      match Run(s.m).0
      case NeedMore =>
        WaitFed(policy, s, c);
      case Bad =>
        FinishExtends(policy, Receive(s, c));
      case Parsed =>
        OneFed(policy, s, c);
        FinishOne(policy, Receive(s, c));
        if One(policy, s).1 {
          PassFedAnyway(policy, One(policy, s).0, n - 1, c);
        } else {
          ClosedIsDone(policy, One(policy, s).0);
        }
    }
  }

  /** Whatever the lines: cutting the stream into pieces can only turn the rest
      of a conversation into a 400; it never changes, adds or reorders what was
      answered before. */
  lemma {:induction false} CutsOnlyRefuse(policy: Policy, s: Session, batches: seq<Buffer>)
    ensures var f := Finish(policy, Serve(policy, s, batches));
            var w := Finish(policy, Receive(s, ConcatAll(batches)));
            f == w || GaveUp(f, w)
    decreases |batches|
  {
    hide Pass, Finish;
    if batches == [] {
      ReceiveNothing(s);
    } else {
      var first := Receive(s, batches[0]);
      var rest := ConcatAll(batches[1..]);
      ReceiveTwice(s, batches[0], rest);
      PassFedAnyway(policy, first, MAX_REQUESTS_PER_PASS, rest);
      var t := Pass(policy, first, MAX_REQUESTS_PER_PASS);
      if t.Closed? {
        ServeClosed(policy, t, batches[1..]);
        ClosedIsDone(policy, t);
      } else {
        CutsOnlyRefuse(policy, t, batches[1..]);
      }
    }
  }

  lemma {:induction false} ServeClosed(policy: Policy, s: Session, batches: seq<Buffer>)
    requires s.Closed?
    ensures Serve(policy, s, batches) == s
    decreases |batches|
  {
    if batches != [] {
      ServeClosed(policy, s, batches[1..]);
    }
  }

  // ------------------------------------------------------- the exact condition

  /** Read tasks that find nothing new. */
  function Silence(n: nat): seq<Buffer> {
    if n == 0 then [] else [[]] + Silence(n - 1)
  }

  /** Passes without new bytes serve a connection to the end. */
  lemma {:induction false} Drained(policy: Policy, s: Session, n: nat)
    requires s.Open? ==> |s.m.buf| <= n
    ensures Serve(policy, s, Silence(n)) == Finish(policy, s)
    decreases n
  {
    hide Pass, Finish;
    if n == 0 {
      IdleIsDone(policy, s);
    } else {
      var t := Pass(policy, s, MAX_REQUESTS_PER_PASS);
      ReceiveNothing(s);
      FinishPass(policy, s, MAX_REQUESTS_PER_PASS);
      assert Silence(n)[1..] == Silence(n - 1);
      if t == Finish(policy, s) {
        DoneStays(policy, t, n - 1);
      } else {
        PassShrinks(policy, s, MAX_REQUESTS_PER_PASS);
        Drained(policy, t, n - 1);
      }
    }
  }

  lemma IdleIsDone(policy: Policy, s: Session)
    requires Idle(s)
    ensures Finish(policy, s) == s
  {
  }

  lemma {:induction false} DoneStays(policy: Policy, s: Session, n: nat)
    requires Finish(policy, s) == s
    ensures Serve(policy, s, Silence(n)) == s
    decreases n
  {
    if n > 0 {
      ReceiveNothing(s);
      DonePass(policy, s, MAX_REQUESTS_PER_PASS);
      assert Silence(n)[1..] == Silence(n - 1);
      DoneStays(policy, s, n - 1);
    }
  }

  lemma DonePass(policy: Policy, s: Session, n: nat)
    requires Finish(policy, s) == s
    ensures Pass(policy, s, n) == s
  {
    hide Run;
    if !Idle(s) && n > 0 && One(policy, s).1 {
      assert |One(policy, s).0.replies| == |s.replies| + 1;
      FinishExtends(policy, One(policy, s).0);
      assert false;
    }
  }

  lemma {:induction false} PassShrinks(policy: Policy, s: Session, n: nat)
    requires Pass(policy, s, n) != Finish(policy, s)
    ensures var t := Pass(policy, s, n);
            s.Open? && t.Open? && |t.m.buf| + n <= |s.m.buf| + Age(s.m)
    decreases n
  {
    hide Run;
    if !Idle(s) && n > 0 && One(policy, s).1 {
      PassShrinks(policy, One(policy, s).0, n - 1);
    }
  }

  /** A run that delivers is the same when the buffer ends earlier, but not
      before what the run leaves. */
  lemma {:induction false} RunShorter(m: Machine, a: Buffer, c: Buffer) returns (taken: Buffer)
    requires Run(m).0 == Parsed && Run(m).1.buf == a + c
    ensures m.buf == taken + (a + c)
    ensures Run(m.(buf := taken + a)) == (Parsed, Run(m).1.(buf := a))
    decreases |m.buf|, Rank(m.state)
  {
    hide Step;
    if m.state == Complete {
      taken := [];
      assert [] + a == a && [] + (a + c) == a + c;
    } else {
      assert !Refuses(m) by {
        if Refuses(m) {
          RefusesIsBad(m);
        }
      }
      taken := RunShorterStep(m, a, c);
    }
  }

  lemma RunShorterStep(m: Machine, a: Buffer, c: Buffer) returns (taken: Buffer)
    requires m.state != Complete && m.state != Error && !Refuses(m)
    requires Run(m).0 == Parsed && Run(m).1.buf == a + c
    ensures m.buf == taken + (a + c)
    ensures Run(m.(buf := taken + a)) == (Parsed, Run(m).1.(buf := a))
    decreases |m.buf|, Rank(m.state), 0
  {
    hide Step, Refuses;
    var n := Step(m).next;
    var later := RunShorter(n, a, c);
    hide Run;
    RunStep(m, n);
    assert n.buf == (later + a) + c;
    var first := StepShorter(m, later + a, c);
    taken := first + later;
    assert first + (later + a) == taken + a && first + ((later + a) + c) == taken + (a + c);
    RunStep(m.(buf := taken + a), n.(buf := later + a));
  }

  /** If the session asks for a contested line before it refuses anything, there
      is a point to stop at where the bytes so far are refused and the whole is
      not. */
  lemma {:induction false} UntameServe(policy: Policy, s: Session) returns (a: Buffer, c: Buffer)
    requires !TameSession(policy, s)
    ensures s.Open? && s.m.buf == a + c && a != []
    ensures Finish(policy, s.(m := s.m.(buf := a))) != Finish(policy, s)
    ensures Finish(policy, s.(m := s.m.(buf := a))).Closed?
    decreases if s.Open? then |s.m.buf| else 0, if s.Open? then Age(s.m) else 0
  {
    hide Run, Tame, Finish;
    if Tame(s.m) || Run(s.m).0 == Bad {
      var t := One(policy, s).0;
      var a', c' := UntameServe(policy, t);
      var taken := RunShorter(s.m, a', c');
      a, c := taken + a', c';
      assert taken + (a' + c') == a + c;
      OneShorter(policy, s, a, a');
    } else {
      a, c := UntameSplit(s.m);
      BadDiffers(policy, s, s.(m := s.m.(buf := a)));
    }
  }

  /** A request that is parsed from less is answered in the same way. */
  lemma OneShorter(policy: Policy, s: Session, a: Buffer, rest: Buffer)
    requires s.Open? && s.m.buf != [] && a != [] && One(policy, s).1
    requires Run(s.m.(buf := a)) == (Parsed, Run(s.m).1.(buf := rest))
    ensures Finish(policy, s) == Finish(policy, One(policy, s).0)
    ensures Finish(policy, s.(m := s.m.(buf := a))) ==
            Finish(policy, One(policy, s).0.(m := One(policy, s).0.m.(buf := rest)))
  {
    hide Run;
  }

  lemma BadDiffers(policy: Policy, s: Session, f: Session)
    requires s.Open? && s.m.buf != [] && Run(s.m).0 != Bad
    requires f.Open? && f.m.buf != [] && Run(f.m).0 == Bad && f.replies == s.replies
    ensures Finish(policy, f) != Finish(policy, s) && Finish(policy, f).Closed?
  {
    hide Run;
    var n := |s.replies|;
    assert Finish(policy, f).replies[n] == BadRequest;
    if One(policy, s).1 {
      FinishExtends(policy, One(policy, s).0);
      assert One(policy, s).0.replies[n] != BadRequest;
    }
  }

  /** The connection as it is accepted. */
  const NewSession: Session := Open(Fresh([]), [])

  /** Split independence, exactly: a stream is answered in the same way however
      it is cut into pieces if and only if it asks for no line of 8192 to 65536
      bytes before the first refusal of the stream as a whole. */
  lemma SplitIndependentExactly(policy: Policy, stream: Buffer)
    ensures TameSession(policy, Open(Fresh(stream), [])) <==>
            forall batches :: ConcatAll(batches) == stream ==>
              Finish(policy, Serve(policy, NewSession, batches)) == Finish(policy, Open(Fresh(stream), []))
  {
    hide Finish, TameSession, Pass, Serve;
    var whole := Open(Fresh(stream), []);
    assert Receive(NewSession, stream) == whole by {
      assert [] + stream == stream;
    }
    if TameSession(policy, whole) {
      forall batches | ConcatAll(batches) == stream
        ensures Finish(policy, Serve(policy, NewSession, batches)) == Finish(policy, whole)
      {
        SplitIndependent(policy, NewSession, batches);
      }
    } else {
      var a, c := UntameServe(policy, whole);
      var batches := BadCut(policy, a, c);
    }
  }

  /** All of `a`, and then passes until it has been dealt with. */
  lemma ServedInSilence(policy: Policy, a: Buffer) returns (batches: seq<Buffer>)
    ensures ConcatAll(batches) == a
    ensures Serve(policy, NewSession, batches) == Finish(policy, Open(Fresh(a), []))
  {
    hide Finish, Pass;
    var whole := Open(Fresh(a), []);
    batches := [a] + Silence(|a|);
    SilenceIsNothing(|a|);
    assert batches[1..] == Silence(|a|);
    assert Receive(NewSession, a) == whole by {
      assert [] + a == a;
    }
    FinishPass(policy, whole, MAX_REQUESTS_PER_PASS);
    PassNoLonger(policy, whole, MAX_REQUESTS_PER_PASS);
    Drained(policy, Pass(policy, whole, MAX_REQUESTS_PER_PASS), |a|);
  }

  /** First `a`, then passes until it has been dealt with, then `c`. */
  lemma BadCut(policy: Policy, a: Buffer, c: Buffer) returns (batches: seq<Buffer>)
    requires Finish(policy, Open(Fresh(a), [])).Closed?
    ensures ConcatAll(batches) == a + c
    ensures Finish(policy, Serve(policy, NewSession, batches)) == Finish(policy, Open(Fresh(a), []))
  {
    hide Finish, Pass, Silence;
    var served := ServedInSilence(policy, a);
    batches := served + [c];
    ConcatAllAppend(served, [c]);
    assert ConcatAll([c]) == c;
    ServeAppend(policy, NewSession, served, [c]);
    var closed := Finish(policy, Open(Fresh(a), []));
    ServeClosed(policy, closed, [c]);
    ClosedIsDone(policy, closed);
  }

  lemma {:induction false} PassNoLonger(policy: Policy, s: Session, n: nat)
    ensures var t := Pass(policy, s, n);
            t.Open? ==> s.Open? && |t.m.buf| <= |s.m.buf|
    decreases n
  {
    hide Run;
    if !Idle(s) && n > 0 && One(policy, s).1 {
      PassNoLonger(policy, One(policy, s).0, n - 1);
    }
  }

  lemma {:induction false} SilenceIsNothing(n: nat)
    ensures ConcatAll(Silence(n)) == []
    decreases n
  {
    if n > 0 {
      assert Silence(n)[1..] == Silence(n - 1);
      SilenceIsNothing(n - 1);
    }
  }

  lemma {:induction false} ServeAppend(policy: Policy, s: Session, xs: seq<Buffer>, ys: seq<Buffer>)
    ensures Serve(policy, s, xs + ys) == Serve(policy, Serve(policy, s, xs), ys)
    decreases |xs|
  {
    hide Pass;
    if xs == [] {
      assert xs + ys == ys;
    } else {
      assert (xs + ys)[0] == xs[0] && (xs + ys)[1..] == xs[1..] + ys;
      ServeAppend(policy, Pass(policy, Receive(s, xs[0]), MAX_REQUESTS_PER_PASS), xs[1..], ys);
    }
  }

  /** Serving part of a stream gives a prefix of what serving all of it in one
      pass would give. */
  lemma RepliesPrefix(policy: Policy, batches: seq<Buffer>, more: Buffer)
    requires TameSession(policy, Open(Fresh(ConcatAll(batches) + more), []))
    ensures Serve(policy, NewSession, batches).replies <=
            Finish(policy, Open(Fresh(ConcatAll(batches) + more), [])).replies
  {
    hide Finish, TameSession, Serve, ConcatAll;
    var stream := ConcatAll(batches) + more;
    assert Receive(NewSession, stream) == Open(Fresh(stream), []) by {
      assert [] + stream == stream;
    }
    ServedBefore(policy, NewSession, batches, more);
    FinishExtends(policy, Receive(Serve(policy, NewSession, batches), more));
  }

  // --------------------------------------------------------- the end of a stream

  /** What the client gets when the bytes `last` come in the same drain as the end
      of the stream: that read task receives them and does not parse. */
  function Ended(policy: Policy, s: Session, batches: seq<Buffer>, last: Buffer): Session {
    Receive(Serve(policy, s, batches), last)
  }

  /** A pass would find something to reply to. */
  predicate HasMore(s: Session) {
    s.Open? && s.m.buf != [] && Run(s.m).0 != NeedMore
  }

  lemma {:induction false} FinishReplies(policy: Policy, s: Session)
    ensures |Finish(policy, s).replies| > |s.replies| <==> HasMore(s)
    ensures s.Open? && Finish(policy, s).Closed? ==> HasMore(s)
  {
    hide Run;
    if !Idle(s) && One(policy, s).1 {
      FinishExtends(policy, One(policy, s).0);
    }
  }

  /** The end of a stream loses replies, exactly: the replies given are the first
      of those to the whole stream, the lost ones are what serving the connection
      to the end would have added, and there are some if and only if the parser
      would not have waited when the end was seen. */
  lemma EndLosesExactly(policy: Policy, s: Session, batches: seq<Buffer>, last: Buffer)
    requires TameSession(policy, Receive(s, ConcatAll(batches) + last))
    ensures var ended, whole := Ended(policy, s, batches, last), Finish(policy, Receive(s, ConcatAll(batches) + last));
            && ended.replies <= whole.replies && whole == Finish(policy, ended)
            && (ended.replies != whole.replies <==> HasMore(ended))
  {
    hide Serve, TameSession, Finish, HasMore;
    var ended := Ended(policy, s, batches, last);
    ServedBefore(policy, s, batches, last);
    FinishExtends(policy, ended);
    FinishReplies(policy, ended);
  }

  /** However a stream and its end are divided among read tasks, the replies are
      the same. */
  ghost predicate EndedAlike(policy: Policy, stream: Buffer) {
    forall a, x, b, y :: ConcatAll(a) + x == stream && ConcatAll(b) + y == stream ==>
      Ended(policy, NewSession, a, x).replies == Ended(policy, NewSession, b, y).replies
  }

  /** A stream with an end is answered in the same way for every division if and
      only if it asks for no contested line and gets no reply at all: whatever
      gets a reply gets none when it comes in the same drain as the end. */
  lemma EndedAlikeExactly(policy: Policy, stream: Buffer)
    ensures EndedAlike(policy, stream) <==>
            var whole := Open(Fresh(stream), []);
            TameSession(policy, whole) && Finish(policy, whole).replies == []
  {
    hide Finish, TameSession, Serve, ConcatAll;
    var whole := Open(Fresh(stream), []);
    if EndedAlike(policy, stream) {
      NoReply(policy, stream);
    } else {
      var a, x, b, y :| ConcatAll(a) + x == stream && ConcatAll(b) + y == stream &&
        Ended(policy, NewSession, a, x).replies != Ended(policy, NewSession, b, y).replies;
      assert Receive(NewSession, stream) == whole by {
        assert [] + stream == stream;
      }
      if TameSession(policy, whole) {
        EndLosesExactly(policy, NewSession, a, x);
        EndLosesExactly(policy, NewSession, b, y);
      }
    }
  }

  lemma NoReply(policy: Policy, stream: Buffer)
    requires EndedAlike(policy, stream)
    ensures var whole := Open(Fresh(stream), []);
            TameSession(policy, whole) && Finish(policy, whole).replies == []
  {
    hide Finish, TameSession, Serve;
    var whole := Open(Fresh(stream), []);
    assert Ended(policy, NewSession, [], stream).replies == [] by {
      AllAtTheEnd(policy, stream);
    }
    assert ConcatAll([]) + stream == stream;
    var batches := ServedInSilence(policy, stream);
    assert ConcatAll(batches) + [] == stream;
    assert Ended(policy, NewSession, batches, []).replies == [];
    if !TameSession(policy, whole) {
      var served, last := UntameEnded(policy, stream);
      assert false;
    }
  }

  /** The part that is refused is served before the end is seen. */
  lemma UntameEnded(policy: Policy, stream: Buffer) returns (batches: seq<Buffer>, last: Buffer)
    requires !TameSession(policy, Open(Fresh(stream), []))
    ensures ConcatAll(batches) + last == stream && Ended(policy, NewSession, batches, last).replies != []
  {
    hide Finish, TameSession, Serve;
    var a;
    a, last := UntameServe(policy, Open(Fresh(stream), []));
    batches := ServedInSilence(policy, a);
    FinishReplies(policy, Open(Fresh(a), []));
  }

  lemma AllAtTheEnd(policy: Policy, stream: Buffer)
    ensures Ended(policy, NewSession, [], stream).replies == []
  {
  }
}
