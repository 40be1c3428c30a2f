/** A whole conversation on one connection: from the events of epoll and the
    bytes of a client to the bytes that it gets. */
module Conversation {
  import opened Bytes
  import opened HttpHeaders
  import opened HttpRequest
  import opened HttpResponse
  import opened HttpResponseEncoder
  import opened HttpRequestParser
  import opened ParserLaws
  import opened MessageGrammar
  import opened Session
  import opened Connection

  // --------------------------------------------------------------------- runs

  /** What happens to a connection: epoll reports input, output or neither; a
      resubmitted `handle_client_read` is called, its own or one of an earlier
      connection with the same descriptor; it is dropped from the map; one of the
      tasks that have captured it runs, and this is what its system calls return.
      `running` is what the event finds the state of the server to be. */
  datatype Event =
    | Report(input: bool, output: bool, running: bool)
    | Call(running: bool)
    | Drop
    | Read(received: seq<Buffer>, ending: RecvEnd, sends: seq<int>, running: bool)
    | Write(sends: seq<int>, running: bool)

  /** History: whether the last task, or any task, asked for the removal of the
      connection; whether since the last task a report has started none; whether
      any event has found the server stopping. */
  datatype Past = Past(asked: bool, doomed: bool, missed: bool, stopped: bool)

  /** Whether a connection is in the map, what epoll is armed for, how many read
      and write tasks that have captured it are to come, and how many of its own
      resubmitted calls. */
  datatype Watch = Watch(
    present: bool, input: bool, output: bool, readTasks: nat, writeTasks: nat, calls: nat, past: Past)

  datatype Situation = Situation(link: Link, watch: Watch)

  const NewWatch := Watch(true, true, false, 0, 0, 0, Past(false, false, false, false))
  const NewSituation := Situation(NewLink, NewWatch)

  predicate CanHappen(w: Watch, e: Event) {
    match e
    case Report(input, output, _) => w.present && (input ==> w.input) && (output ==> w.output)
    case Call(_) => w.present || w.calls > 0
    case Drop => w.present
    case Read(_, _, _, _) => w.readTasks > 0
    case Write(_, _) => w.writeTasks > 0
  }

  /** A report disarms epoll; it starts a write task for output, and a read task
      for input unless the server is stopping. A call starts a read task if it
      finds the connection. */
  function Noticed(w: Watch, e: Event): Watch
    requires CanHappen(w, e)
  {
    match e
    case Report(input, output, running) =>
      w.(input := false, output := false,
         readTasks := if input && running then w.readTasks + 1 else w.readTasks,
         writeTasks := if output then w.writeTasks + 1 else w.writeTasks,
         past := w.past.(missed := !(input && running) && !output, stopped := w.past.stopped || !running))
    case Call(running) =>
      w.(calls := if w.calls > 0 then w.calls - 1 else 0,
         readTasks := if w.present && running then w.readTasks + 1 else w.readTasks,
         past := w.past.(stopped := w.past.stopped || !running))
    case Drop => w.(present := false, input := false, output := false)
    case Read(_, _, _, running) =>
      w.(readTasks := w.readTasks - 1, past := w.past.(stopped := w.past.stopped || !running))
    case Write(_, running) =>
      w.(writeTasks := w.writeTasks - 1, past := w.past.(stopped := w.past.stopped || !running))
  }

  /** The end of a task: epoll is armed anew, if the connection is still there, and
      the read task may be resubmitted. The removal is an event of its own. */
  function Settled(w: Watch, next: Disposition): Watch {
    match next
    case Remove => w.(past := w.past.(asked := true, doomed := true, missed := false))
    case Rearm(input, output, again) =>
      w.(input := if w.present then input else w.input, output := if w.present then output else w.output,
         calls := if again then w.calls + 1 else w.calls, past := w.past.(asked := false, missed := false))
  }

  ghost function Then(server: Server, s: Situation, e: Event): Situation
    requires Walks(server) && CanHappen(s.watch, e)
  {
    match e
    case Read(received, ending, sends, running) =>
      var (l, next) := ReadTaskOf(server, s.link, received, ending, sends, running);
      Situation(l, Settled(Noticed(s.watch, e), next))
    case Write(sends, running) =>
      var (l, next) := WriteTaskOf(s.link, sends, running);
      Situation(l, Settled(Noticed(s.watch, e), next))
    case Report(_, _, _) => Situation(s.link, Noticed(s.watch, e))
    case Call(_) => Situation(s.link, Noticed(s.watch, e))
    case Drop => Situation(s.link, Noticed(s.watch, e))
  }

  ghost predicate Possible(server: Server, s: Situation, events: seq<Event>)
    requires Walks(server)
    decreases |events|
  {
    events == [] || (CanHappen(s.watch, events[0]) && Possible(server, Then(server, s, events[0]), events[1..]))
  }

  ghost function After(server: Server, s: Situation, events: seq<Event>): Situation
    requires Walks(server) && Possible(server, s, events)
    decreases |events|
  {
    if events == [] then s else After(server, Then(server, s, events[0]), events[1..])
  }

  /** One event, on the object. */
  method Happen(conn: Connection, w: Watch, e: Event) returns (after: Watch)
    requires Walks(conn.server) && CanHappen(w, e)
    modifies conn.Repr()
    ensures Situation(conn.View(), after) == Then(conn.server, Situation(old(conn.View()), w), e)
  {
    hide Walks, ReadTaskOf, WriteTaskOf;
    after := Noticed(w, e);
    if e.Read? {
      var next := conn.ReadTask(e.received, e.ending, e.sends, e.running);
      after := Settled(after, next);
    } else if e.Write? {
      var next := conn.WriteTask(e.sends, e.running);
      after := Settled(after, next);
    }
  }

  /** A run, on the object: it ends up as the value says, and so do epoll and the
      tasks that are still to come. */
  method Converse(conn: Connection, events: seq<Event>) returns (w: Watch)
    requires conn.View() == NewLink && Walks(conn.server) && Possible(conn.server, NewSituation, events)
    modifies conn.Repr()
    ensures Situation(conn.View(), w) == After(conn.server, NewSituation, events)
  {
    hide Walks, Then, CanHappen;
    w := NewWatch;
    var rest := events;
    while rest != []
      invariant Possible(conn.server, Situation(conn.View(), w), rest)
      invariant After(conn.server, Situation(conn.View(), w), rest) == After(conn.server, NewSituation, events)
      decreases |rest|
    {
      w := Happen(conn, w, rest[0]);
      rest := rest[1..];
    }
  }

  // ------------------------------------------------------------- conservation

  /** The encoded responses to `replies`, in order. */
  ghost function Output(server: Server, replies: seq<Reply>): Buffer
    requires Walks(server)
  {
    if replies == [] then []
    else
      var n := |replies| - 1;
      Output(server, replies[..n]) + WireOf(server, n, replies[n])
  }

  ghost predicate Conserved(server: Server, l: Link)
    requires Walks(server)
  {
    l.sent + l.queued == Output(server, l.replies)
  }

  lemma RepliedConserves(server: Server, l: Link, reply: Reply)
    requires Walks(server) && Conserved(server, l)
    ensures Conserved(server, Replied(server, l, reply))
  {
    hide WireOf, Walks;
    var u := Replied(server, l, reply);
    assert u.replies[..|l.replies|] == l.replies;
    assert l.sent + (l.queued + WireOf(server, |l.replies|, reply)) ==
           (l.sent + l.queued) + WireOf(server, |l.replies|, reply);
  }

  lemma FlushConserves(server: Server, l: Link, sends: seq<int>)
    requires Walks(server) && Conserved(server, l)
    ensures Conserved(server, AfterFlush(l, sends))
  {
    hide Walks, Output;
    var f := FlushOf(l.queued, sends);
    assert (l.sent + f.taken) + f.left == l.sent + (f.taken + f.left);
  }

  lemma TurnConserves(server: Server, l: Link)
    requires Walks(server) && Conserved(server, l)
    ensures Conserved(server, TurnOf(server, l).0)
  {
    var p := Run(l.m);
    hide Walks, Output, Run, Fresh, Closes, Replied;
    var next := l.(m := p.1);
    RepliedConserves(server, next, BadRequest);
    RepliedConserves(server, next, TooManyRequests);
    RepliedConserves(server, l.(m := Fresh(p.1.buf)), Answer(p.1.req));
  }

  lemma {:induction false} LoopConserves(server: Server, l: Link, n: nat)
    requires Walks(server) && Conserved(server, l)
    ensures Conserved(server, LoopOf(server, l, n).link)
    decreases n
  {
    hide Walks, Conserved, TurnOf;
    if l.m.buf != [] && n > 0 {
      TurnConserves(server, l);
      if n > 1 {
        LoopConserves(server, TurnOf(server, l).0, n - 1);
      }
    }
  }

  lemma ThenConserves(server: Server, s: Situation, e: Event)
    requires Walks(server) && CanHappen(s.watch, e) && Conserved(server, s.link)
    ensures Conserved(server, Then(server, s, e).link)
  {
    hide Walks, LoopOf, FlushOf, Output;
    match e
    case Read(received, ending, sends, running) =>
      var drained := AfterDrain(s.link, received);
      LoopConserves(server, drained, MAX_REQUESTS_PER_PASS);
      FlushConserves(server, LoopOf(server, drained, MAX_REQUESTS_PER_PASS).link, sends);
    case Write(sends, running) =>
      FlushConserves(server, s.link, sends);
    case Report(_, _, _) =>
    case Call(_) =>
    case Drop =>
  }

  /** Conservation over every run: what the client was sent, followed by what is
      queued, is the responses to the replies in the order of the requests. */
  lemma {:induction false} OutputConserved(server: Server, s: Situation, events: seq<Event>)
    requires Walks(server) && Possible(server, s, events) && Conserved(server, s.link)
    ensures Conserved(server, After(server, s, events).link)
    decreases |events|
  {
    hide Walks, Then, CanHappen, Conserved;
    if events != [] {
      ThenConserves(server, s, events[0]);
      OutputConserved(server, Then(server, s, events[0]), events[1..]);
    }
  }

  // ---------------------------------------------------- what the client is told

  /** The number of elements up to and with the first one that has the property;
      all of them when none has it. */
  function Until<T>(s: seq<T>, p: T -> bool): (n: nat)
    ensures n <= |s|
    ensures forall i :: 0 <= i < n - 1 ==> !p(s[i])
    ensures (n > 0 && p(s[n - 1])) || (n == |s| && forall i :: 0 <= i < |s| ==> !p(s[i]))
  {
    if s == [] then 0 else if p(s[0]) then 1 else 1 + Until(s[1..], p)
  }

  /** The number of replies up to and with the first one that closes. */
  ghost function UpTo(server: Server, replies: seq<Reply>): nat {
    Until(replies, reply => Closes(server, reply))
  }

  ghost predicate SomeCloses(server: Server, replies: seq<Reply>) {
    exists i :: 0 <= i < |replies| && Closes(server, replies[i])
  }

  /** A session that has been told about what the read tasks of a run found. A
      task that finds the end of the stream does not parse. */
  ghost function Told(policy: Policy, t: Session, events: seq<Event>): Session
    decreases |events|
  {
    if events == [] then t else Told(policy, Heard(policy, t, events[0]), events[1..])
  }

  function Heard(policy: Policy, t: Session, e: Event): Session {
    if !e.Read? then t
    else if e.ending == WouldBlock then Pass(policy, Receive(t, ConcatAll(e.received)), MAX_REQUESTS_PER_PASS)
    else Receive(t, ConcatAll(e.received))
  }

  /** The session describes the connection, up to the first closing reply. */
  ghost predicate Agree(server: Server, l: Link, t: Session) {
    match t
    case Open(m, replies) => l.m == m && l.replies == replies && !SomeCloses(server, replies)
    case Closed(replies) => ClosesAt(server, l.replies, replies)
  }

  /** `replies` are the first of `all`, and the last of them is the first one of
      all that closes. */
  ghost predicate ClosesAt(server: Server, all: seq<Reply>, replies: seq<Reply>) {
    && replies != [] && replies <= all && Closes(server, replies[|replies| - 1])
    && !SomeCloses(server, replies[..|replies| - 1])
  }

  lemma AgreeUpTo(server: Server, l: Link, t: Session)
    requires Agree(server, l, t)
    ensures l.replies[..UpTo(server, l.replies)] == t.replies
    ensures t.Open? <==> !SomeCloses(server, l.replies)
  {
    hide Closes;
    var n := |t.replies|;
    if t.Closed? {
      assert l.replies[n - 1] == t.replies[n - 1];
      forall i | 0 <= i < n - 1
        ensures !Closes(server, l.replies[i])
      {
        assert l.replies[i] == t.replies[..n - 1][i];
      }
    }
  }

  // The parse loop of a connection does what the pass of its session says.

  lemma TurnIsOne(server: Server, l: Link)
    requires Walks(server) && !SomeCloses(server, l.replies)
    ensures var (next, turn) := TurnOf(server, l);
            var (t, go) := One(PolicyOf(server), Open(l.m, l.replies));
            && (turn == Answered <==> go) && (turn == Waiting || turn == Answered <==> t.Open?)
            && next.replies == t.replies && Agree(server, next, t)
  {
    hide Closes, Fresh, WireOf, Walks, SomeCloses, ClosesAt, PolicyOf, Step;
    RefusalsClose(server);
    var p := Run(l.m);
    PolicyIs(server, |l.replies|, p.1.req);
    OneMoreReply(server, l.replies, BadRequest);
    OneMoreReply(server, l.replies, TooManyRequests);
    OneMoreReply(server, l.replies, Answer(p.1.req));
    hide Run;
  }

  lemma PolicyIs(server: Server, n: nat, req: Request)
    ensures PolicyOf(server)(n, req) ==
            if !server.allow(n) then Limited else if Closes(server, Answer(req)) then CloseAfter else KeepOpen
  {
    hide Closes;
  }

  lemma OneMoreReply(server: Server, replies: seq<Reply>, reply: Reply)
    requires !SomeCloses(server, replies)
    ensures if Closes(server, reply) then ClosesAt(server, replies + [reply], replies + [reply])
            else !SomeCloses(server, replies + [reply])
  {
    hide Closes;
    assert (replies + [reply])[..|replies|] == replies;
  }

  lemma RefusalsClose(server: Server)
    ensures Closes(server, TooManyRequests) && Closes(server, BadRequest)
  {
  }

  lemma {:induction false} LoopIsPass(server: Server, l: Link, n: nat)
    requires Walks(server) && !SomeCloses(server, l.replies)
    ensures var (next, t) := (LoopOf(server, l, n).link, Pass(PolicyOf(server), Open(l.m, l.replies), n));
            next.replies == t.replies && Agree(server, next, t)
    decreases n
  {
    hide Walks, TurnOf, One, SomeCloses, ClosesAt, PolicyOf;
    if l.m.buf != [] && n > 0 {
      TurnIsOne(server, l);
      if TurnOf(server, l).1 == Answered {
        LoopIsPass(server, TurnOf(server, l).0, n - 1);
      }
    }
  }

  lemma {:induction false} LoopExtends(server: Server, l: Link, n: nat)
    requires Walks(server)
    ensures l.replies <= LoopOf(server, l, n).link.replies
    decreases n
  {
    hide Walks, Run, WireOf, Closes;
    if l.m.buf != [] && n > 0 {
      LoopExtends(server, TurnOf(server, l).0, n - 1);
    }
  }

  lemma ThenAgrees(server: Server, s: Situation, e: Event, t: Session)
    requires Walks(server) && CanHappen(s.watch, e) && Agree(server, s.link, t)
    ensures var (next, u) := (Then(server, s, e).link, Heard(PolicyOf(server), t, e));
            Agree(server, next, u) && (t.Open? ==> next.replies == u.replies)
  {
    hide Walks, LoopOf, FlushOf, Pass, SomeCloses, Closes, PolicyOf;
    if e.Read? {
      var drained := AfterDrain(s.link, e.received);
      if t.Open? {
        LoopIsPass(server, drained, MAX_REQUESTS_PER_PASS);
      } else {
        LoopExtends(server, drained, MAX_REQUESTS_PER_PASS);
        PassOfClosed(PolicyOf(server), t, MAX_REQUESTS_PER_PASS);
      }
    }
  }

  lemma PassOfClosed(policy: Policy, t: Session, n: nat)
    requires t.Closed?
    ensures Pass(policy, t, n) == t
  {
  }

  lemma {:induction false} AfterAgrees(server: Server, s: Situation, events: seq<Event>, t: Session)
    requires Walks(server) && Possible(server, s, events) && Agree(server, s.link, t)
    ensures Agree(server, After(server, s, events).link, Told(PolicyOf(server), t, events))
    decreases |events|
  {
    hide Walks, Then, CanHappen, Agree, Heard, PolicyOf;
    if events != [] {
      ThenAgrees(server, s, events[0], t);
      AfterAgrees(server, Then(server, s, events[0]), events[1..], Heard(PolicyOf(server), t, events[0]));
    }
  }

  /** Everything that the read tasks of a run received. */
  function AllBytes(events: seq<Event>): Buffer
    decreases |events|
  {
    if events == [] then []
    else (if events[0].Read? then ConcatAll(events[0].received) else []) + AllBytes(events[1..])
  }

  /** What a session was told in pieces and what it would be told in one piece
      come to the same in the end. */
  lemma {:induction false} ToldWhole(policy: Policy, t: Session, events: seq<Event>, more: Buffer)
    requires TameSession(policy, Receive(t, AllBytes(events) + more))
    ensures Finish(policy, Receive(Told(policy, t, events), more)) ==
            Finish(policy, Receive(t, AllBytes(events) + more))
    decreases |events|
  {
    hide Pass, Finish, TameSession, ConcatAll;
    if events == [] {
      assert AllBytes(events) + more == more;
    } else {
      var e, rest := events[0], AllBytes(events[1..]) + more;
      if e.Read? {
        var first := Receive(t, ConcatAll(e.received));
        assert AllBytes(events) + more == ConcatAll(e.received) + rest;
        ReceiveTwice(t, ConcatAll(e.received), rest);
        PassFed(policy, first, MAX_REQUESTS_PER_PASS, rest);
      } else {
        assert AllBytes(events) + more == rest;
      }
      ToldWhole(policy, Heard(policy, t, e), events[1..], more);
    }
  }

  /** End to end, over every run of a connection: the bytes sent, followed by
      those queued, are the encoded replies; the replies up to the first closing
      one are those of a session that got what the read tasks found; and for a
      stream without contested lines, however it goes on, they are the first
      replies to the whole stream in one pass, which the rest of the bytes
      complete. */
  lemma AnsweredInOrder(server: Server, events: seq<Event>)
    requires Walks(server) && Possible(server, NewSituation, events)
    ensures var l, policy := After(server, NewSituation, events).link, PolicyOf(server);
            var told := Told(policy, NewSession, events);
            && l.sent + l.queued == Output(server, l.replies)
            && l.replies[..UpTo(server, l.replies)] == told.replies
            && (told.Open? ==> told == Open(l.m, l.replies))
            && forall more :: var whole := Open(Fresh(AllBytes(events) + more), []);
                 TameSession(policy, whole) ==>
                   && told.replies <= Finish(policy, whole).replies
                   && Finish(policy, Receive(told, more)) == Finish(policy, whole)
  {
    hide Walks, Possible, After, Told, Output, UpTo, Finish, TameSession, PolicyOf;
    var policy := PolicyOf(server);
    OutputConserved(server, NewSituation, events) by { NothingConserved(server); }
    AfterAgrees(server, NewSituation, events, NewSession);
    AgreeUpTo(server, After(server, NewSituation, events).link, Told(policy, NewSession, events));
    forall more | TameSession(policy, Open(Fresh(AllBytes(events) + more), []))
      ensures var whole, told := Open(Fresh(AllBytes(events) + more), []), Told(policy, NewSession, events);
              told.replies <= Finish(policy, whole).replies &&
              Finish(policy, Receive(told, more)) == Finish(policy, whole)
    {
      assert [] + (AllBytes(events) + more) == AllBytes(events) + more;
      ToldWhole(policy, NewSession, events, more);
      FinishExtends(policy, Receive(Told(policy, NewSession, events), more));
    }
  }

  lemma NothingConserved(server: Server)
    requires Walks(server)
    ensures Conserved(server, NewLink)
  {
  }

  // -------------------------------------------------- replies after a closing one

  /** A read task that runs although a closing reply has been given, and whose
      pass completes, refuses or limits a request. */
  ghost predicate AnswersLate(server: Server, s: Situation, e: Event) {
    && SomeCloses(server, s.link.replies)
    && e.Read? && e.ending == WouldBlock
    && var m := AfterDrain(s.link, e.received).m;
       m.buf != [] && Run(m).0 != NeedMore
  }

  /** Some event of the run is such a task. */
  ghost predicate SomeAnswersLate(server: Server, s: Situation, events: seq<Event>)
    requires Walks(server) && Possible(server, s, events)
    decreases |events|
  {
    events != [] &&
    (AnswersLate(server, s, events[0]) || SomeAnswersLate(server, Then(server, s, events[0]), events[1..]))
  }

  ghost predicate HasLateReplies(server: Server, l: Link) {
    UpTo(server, l.replies) < |l.replies|
  }

  lemma LoopReplies(server: Server, l: Link, n: nat)
    requires Walks(server) && n > 0
    ensures |LoopOf(server, l, n).link.replies| > |l.replies| <==> l.m.buf != [] && Run(l.m).0 != NeedMore
  {
    hide Walks, Run, WireOf, Closes;
    if l.m.buf != [] && n > 1 {
      LoopExtends(server, TurnOf(server, l).0, n - 1);
    }
  }

  lemma ThenReplies(server: Server, s: Situation, e: Event)
    requires Walks(server) && CanHappen(s.watch, e) && SomeCloses(server, s.link.replies)
    ensures s.link.replies <= Then(server, s, e).link.replies
    ensures |Then(server, s, e).link.replies| > |s.link.replies| <==> AnswersLate(server, s, e)
  {
    hide Walks, LoopOf, FlushOf, SomeCloses, Run;
    if e.Read? {
      LoopReplies(server, AfterDrain(s.link, e.received), MAX_REQUESTS_PER_PASS);
      LoopExtends(server, AfterDrain(s.link, e.received), MAX_REQUESTS_PER_PASS);
    }
  }

  /** A late reply comes from a late read task. */
  lemma ThenLate(server: Server, s: Situation, e: Event)
    requires Walks(server) && CanHappen(s.watch, e)
    ensures HasLateReplies(server, Then(server, s, e).link) <==>
            HasLateReplies(server, s.link) || AnswersLate(server, s, e)
  {
    if SomeCloses(server, s.link.replies) {
      ThenReplies(server, s, e);
      UpToStays(server, s.link.replies, Then(server, s, e).link.replies);
      UpToBound(server, s.link.replies);
      hide Walks, Then, Closes, AnswersLate, SomeCloses, UpTo;
    } else {
      ThenInTime(server, s, e);
      NoneLate(server, s.link.replies);
      hide Walks, Then, Closes, UpTo;
    }
  }

  lemma NoneLate(server: Server, replies: seq<Reply>)
    requires !SomeCloses(server, replies)
    ensures UpTo(server, replies) == |replies|
  {
    hide Closes;
  }

  /** The first pass that closes stops at its closing reply. */
  lemma ThenInTime(server: Server, s: Situation, e: Event)
    requires Walks(server) && CanHappen(s.watch, e) && !SomeCloses(server, s.link.replies)
    ensures var replies := Then(server, s, e).link.replies; UpTo(server, replies) == |replies|
  {
    hide Walks, Then, CanHappen, Closes, Heard, Run, PolicyOf, SomeCloses, UpTo;
    var t := Open(s.link.m, s.link.replies);
    ThenAgrees(server, s, e, t);
    var u := Heard(PolicyOf(server), t, e);
    AgreeUpTo(server, Then(server, s, e).link, u);
    UpToBound(server, u.replies);
  }

  lemma UpToBound(server: Server, replies: seq<Reply>)
    ensures UpTo(server, replies) <= |replies|
  {
  }

  lemma UpToStays(server: Server, replies: seq<Reply>, all: seq<Reply>)
    requires SomeCloses(server, replies) && replies <= all
    ensures UpTo(server, all) == UpTo(server, replies)
  {
    hide Closes;
    var n := UpTo(server, replies);
    assert forall i :: 0 <= i < |replies| ==> all[i] == replies[i];
    assert Closes(server, all[n - 1]);
  }

  lemma {:induction false} AfterLate(server: Server, s: Situation, events: seq<Event>)
    requires Walks(server) && Possible(server, s, events)
    ensures HasLateReplies(server, After(server, s, events).link) <==>
            HasLateReplies(server, s.link) || SomeAnswersLate(server, s, events)
    decreases |events|
  {
    hide Walks, Then, CanHappen, HasLateReplies, AnswersLate;
    if events != [] {
      ThenLate(server, s, events[0]);
      AfterLate(server, Then(server, s, events[0]), events[1..]);
    }
  }

  /** A reply follows a closing one if and only if some read task ran after the
      closing reply was given and completed, refused or limited a request. */
  lemma LateRepliesExactly(server: Server, events: seq<Event>)
    requires Walks(server) && Possible(server, NewSituation, events)
    ensures var replies := After(server, NewSituation, events).link.replies;
            UpTo(server, replies) < |replies| <==> SomeAnswersLate(server, NewSituation, events)
  {
    assert UpTo(server, []) == 0;
    hide Walks, Possible, After, SomeAnswersLate, UpTo;
    AfterLate(server, NewSituation, events);
  }

  lemma {:induction false} LoopClosing(server: Server, l: Link, n: nat)
    requires Walks(server)
    ensures LoopOf(server, l, n).turn == Closing ==> SomeCloses(server, LoopOf(server, l, n).link.replies)
    ensures LoopOf(server, l, n).link.closing == l.closing
    decreases n
  {
    hide Walks, Run, WireOf, Closes, Fresh;
    if l.m.buf != [] && n > 0 {
      var (next, turn) := TurnOf(server, l);
      if turn == Closing {
        assert next.replies[|l.replies|] == Answer(Run(l.m).1.req);
      }
      LoopClosing(server, next, n - 1);
    }
  }

  ghost predicate FlagTells(server: Server, l: Link) {
    l.closing ==> SomeCloses(server, l.replies)
  }

  lemma ThenFlag(server: Server, s: Situation, e: Event)
    requires Walks(server) && CanHappen(s.watch, e) && FlagTells(server, s.link)
    ensures FlagTells(server, Then(server, s, e).link)
  {
    hide Walks, LoopOf, FlushOf, Closes;
    if e.Read? {
      var drained := AfterDrain(s.link, e.received);
      LoopClosing(server, drained, MAX_REQUESTS_PER_PASS);
      LoopExtends(server, drained, MAX_REQUESTS_PER_PASS);
      StillCloses(server, s.link.replies, LoopOf(server, drained, MAX_REQUESTS_PER_PASS).link.replies);
    }
  }

  lemma StillCloses(server: Server, replies: seq<Reply>, all: seq<Reply>)
    requires replies <= all
    ensures SomeCloses(server, replies) ==> SomeCloses(server, all)
  {
    hide Closes;
    assert forall i :: 0 <= i < |replies| ==> all[i] == replies[i];
  }

  /** Whenever `close_after_write_flag` is set, a closing reply has been given, so
      every read task that then replies is a late one. */
  lemma {:induction false} FlagAfterClosing(server: Server, s: Situation, events: seq<Event>)
    requires Walks(server) && Possible(server, s, events) && FlagTells(server, s.link)
    ensures FlagTells(server, After(server, s, events).link)
    decreases |events|
  {
    hide Walks, Then, CanHappen, FlagTells;
    if events != [] {
      ThenFlag(server, s, events[0]);
      FlagAfterClosing(server, Then(server, s, events[0]), events[1..]);
    }
  }

  /** `u` can be reached from `s`. */
  ghost predicate Leads(server: Server, s: Situation, u: Situation)
    requires Walks(server)
  {
    exists events :: Possible(server, s, events) && After(server, s, events) == u
  }

  lemma LeadsTrans(server: Server, s: Situation, u: Situation, v: Situation)
    requires Walks(server) && Leads(server, s, u) && Leads(server, u, v)
    ensures Leads(server, s, v)
  {
    hide Walks, Then, CanHappen;
    var xs :| Possible(server, s, xs) && After(server, s, xs) == u;
    var ys :| Possible(server, u, ys) && After(server, u, ys) == v;
    RunThen(server, s, xs, ys);
  }

  lemma {:induction false} RunThen(server: Server, s: Situation, xs: seq<Event>, ys: seq<Event>)
    requires Walks(server) && Possible(server, s, xs) && Possible(server, After(server, s, xs), ys)
    ensures Possible(server, s, xs + ys)
    ensures After(server, s, xs + ys) == After(server, After(server, s, xs), ys)
    decreases |xs|
  {
    hide Walks, Then, CanHappen;
    if xs == [] {
      assert xs + ys == ys;
    } else {
      assert (xs + ys)[0] == xs[0] && (xs + ys)[1..] == xs[1..] + ys;
      RunThen(server, Then(server, s, xs[0]), xs[1..], ys);
    }
  }

  lemma LeadsThen(server: Server, s: Situation, u: Situation, e: Event)
    requires Walks(server) && Leads(server, s, u) && CanHappen(u.watch, e)
    ensures Leads(server, s, Then(server, u, e))
  {
    hide Walks, Then, CanHappen;
    var v := Then(server, u, e);
    assert [e][1..] == [] && Possible(server, v, []) && After(server, v, []) == v;
    assert Possible(server, u, [e]) && After(server, u, [e]) == v;
    LeadsTrans(server, s, u, v);
  }

  /** A request after which the connection is to be closed. */
  const OldGet: Message := Message(GET, "/", "HTTP/1.0", [], NoBody)

  lemma OldGetIsLegal()
    ensures LegalMessage(OldGet)
  {
    hide LegalLine, LegalPayload, HeadersOf;
    OldStartIsLegal();
    NoPayloadIsLegal();
  }

  lemma OldStartIsLegal()
    ensures LegalLine(StartLine(OldGet))
  {
    assert StartLine(OldGet) == "GET / HTTP/1.0";
    assert '\r' !in "GET / HTTP/1.0";
  }

  lemma NoPayloadIsLegal()
    ensures LegalPayload(NoBody, HeadersOf([], map[]))
  {
    assert HeadersOf([], map[]) == map[];
  }

  lemma OldGetCloses(server: Server)
    ensures Closes(server, Answer(Meaning(OldGet)))
  {
    hide Finalized;
    assert HeadersOf([], map[]) == map[];
    assert "HTTP/1.0"[7] != "HTTP/1.1"[7];
  }

  lemma OldGetIsRead() returns (buf: Buffer)
    ensures buf != [] && Delivers(Fresh(buf), Meaning(OldGet), [])
  {
    hide LegalMessage, Run, Meaning;
    OldGetIsLegal();
    buf := MessageBytes(OldGet);
    assert buf + [] == buf;
    MessageRead(buf, OldGet, []);
  }

  /** A read task that finds that request on a connection with an empty buffer. */
  lemma OldGetAnswered(server: Server, l: Link) returns (buf: Buffer)
    requires Walks(server) && l.m == Fresh([])
    ensures var r := LoopOf(server, AfterDrain(l, [buf]), MAX_REQUESTS_PER_PASS);
            if server.allow(|l.replies|) then
              r == Looped(Replied(server, l, Answer(Meaning(OldGet))), Closing, false)
            else r.turn == Refused && r.link.replies == l.replies + [TooManyRequests] && r.link.closing == l.closing
  {
    hide Walks, Run, Meaning, Closes, Fresh, WireOf;
    buf := OldGetIsRead();
    OldGetCloses(server);
    ConcatOne(buf);
    assert AfterDrain(l, [buf]).m == Fresh(buf) by { FreshFed(buf); }
  }

  lemma FreshFed(buf: Buffer)
    ensures Fed(Fresh([]), buf) == Fresh(buf)
  {
    assert [] + buf == buf;
  }

  lemma WireIsLong(server: Server, n: nat, reply: Reply)
    requires Walks(server)
    ensures |WireOf(server, n, reply)| > 2
  {
    hide ResponseTo, Tail, Walks, WithFraming;
    assert |"HTTP/1.1 "| == 9;
  }

  /** Epoll reports input, and the read task finds that request while the kernel
      takes one byte of the response. */
  lemma OldGetEvents(server: Server, s: Situation) returns (u: Situation)
    requires Walks(server) && s.watch.present && s.watch.input && s.link.m == Fresh([]) && s.watch.readTasks == 0
    ensures Leads(server, s, u) && u.watch.present
    ensures |u.link.replies| == |s.link.replies| + 1 && s.link.replies <= u.link.replies
    ensures s.link.closing ==> u.link.closing
    ensures server.allow(|s.link.replies|) && s.link.queued == [] ==>
              && u.link.m == Fresh([]) && u.link.replies == s.link.replies + [Answer(Meaning(OldGet))]
              && u.link.closing && |u.link.queued| > 1 && u.watch.output && u.watch.writeTasks == s.watch.writeTasks
              && u.watch.readTasks == 0
  {
    hide Walks, Meaning, Fresh, Run, Closes, LoopOf, WireOf, TurnOf, AfterDrain, FlushOf, Leads;
    var l := s.link;
    var buf := OldGetAnswered(server, l);
    var e := Read([buf], WouldBlock, [1], true);
    LeadsNowhere(server, s);
    LeadsThen(server, s, s, Report(true, false, true));
    var s1 := Then(server, s, Report(true, false, true));
    LeadsThen(server, s, s1, e);
    u := Then(server, s1, e);
    var p := LoopOf(server, AfterDrain(l, [buf]), MAX_REQUESTS_PER_PASS);
    if server.allow(|l.replies|) && l.queued == [] {
      WireIsLong(server, |l.replies|, Answer(Meaning(OldGet)));
      OneByte(p.link.queued);
    }
  }

  lemma LeadsNowhere(server: Server, s: Situation)
    requires Walks(server)
    ensures Leads(server, s, s)
  {
    hide Walks, Then;
    assert Possible(server, s, []);
  }

  lemma OneByte(buf: Buffer)
    requires |buf| > 0
    ensures FlushOf(buf, [1]) == Flushed(buf[..1], buf[1..], false)
  {
  }

  /** The write task sends one byte more, and arms input again. */
  lemma ArmsInputAgain(server: Server, s: Situation) returns (u: Situation)
    requires Walks(server) && s.watch.present && s.watch.output && |s.link.queued| > 1 && s.watch.writeTasks == 0
    ensures Leads(server, s, u) && u.watch.present && u.watch.input && u.watch.readTasks == s.watch.readTasks
    ensures u.watch.writeTasks == 0 && !u.watch.past.asked && u.link.queued != []
    ensures u.link.m == s.link.m && u.link.replies == s.link.replies && u.link.closing == s.link.closing
  {
    hide Walks, AfterDrain, ReadTaskOf;
    OneByte(s.link.queued);
    LeadsNowhere(server, s);
    LeadsThen(server, s, s, Report(false, true, true));
    var s1 := Then(server, s, Report(false, true, true));
    LeadsThen(server, s, s1, Write([1], true));
    u := Then(server, s1, Write([1], true));
  }

  /** The condition is met by real runs, whatever the router does: while a closing
      response waits to be written, the write task arms input again, and a read
      task answers one more request. */
  lemma AnswersAfterClose(server: Server)
    requires Walks(server) && server.allow(0)
    ensures exists u :: Leads(server, NewSituation, u) && u.watch.present && u.link.closing &&
              UpTo(server, u.link.replies) == 1 && |u.link.replies| == 2
  {
    hide Walks, Meaning, Fresh, Closes, Leads;
    var s1 := OldGetEvents(server, NewSituation);
    var s2 := ArmsInputAgain(server, s1);
    LeadsTrans(server, NewSituation, s1, s2);
    var u := OldGetEvents(server, s2);
    LeadsTrans(server, NewSituation, s2, u);
    FirstCloses(server, u);
  }

  lemma FirstCloses(server: Server, u: Situation)
    requires |u.link.replies| > 0 && u.link.replies[0] == Answer(Meaning(OldGet))
    ensures UpTo(server, u.link.replies) == 1
  {
    hide Meaning, Closes;
    OldGetCloses(server);
  }
}
