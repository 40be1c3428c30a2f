/** That a connection is looked after: bytes that wait to be sent have epoll armed
    for output, requests that wait to be parsed have a task to come, and who is to
    be removed asks for it. None of it names what the tasks compute. */
module ConversationUpkeep {
  import opened Bytes
  import opened HttpRequest
  import opened HttpRequestParser
  import opened ParserLaws
  import opened MessageGrammar
  import opened Session
  import opened Connection
  import opened Conversation

  // ------------------------------------------------------------------- arming

  /** No task is to come for a connection that is in the map, and the last one did
      not ask for its removal: only epoll can wake it. */
  predicate Asleep(s: Situation) {
    var w := s.watch;
    w.present && w.readTasks == 0 && w.writeTasks == 0 && !w.past.asked
  }

  /** Epoll is armed for output exactly when bytes are queued; it is armed for input
      when none are, and always unless the connection is to close or the server
      stops. A report that has started no task has disarmed it altogether. */
  ghost predicate Armed(s: Situation) {
    var w, l := s.watch, s.link;
    if w.past.missed then !w.input && !w.output
    else
      && (w.output <==> l.queued != [])
      && (l.queued == [] ==> w.input)
      && (!l.closing && !w.past.stopped ==> w.input)
  }

  lemma ThenArmed(server: Server, s: Situation, e: Event)
    requires Walks(server) && CanHappen(s.watch, e) && (Asleep(s) ==> Armed(s))
    ensures Asleep(Then(server, s, e)) ==> Armed(Then(server, s, e))
  {
    hide Walks, LoopOf, FlushOf, AfterDrain;
    if e.Read? {
      LoopClosing(server, AfterDrain(s.link, e.received), MAX_REQUESTS_PER_PASS);
    }
  }

  lemma {:induction false} AfterArmed(server: Server, s: Situation, events: seq<Event>)
    requires Walks(server) && Possible(server, s, events) && (Asleep(s) ==> Armed(s))
    ensures Asleep(After(server, s, events)) ==> Armed(After(server, s, events))
    decreases |events|
  {
    hide Walks, Then, CanHappen, Asleep, Armed;
    if events != [] {
      ThenArmed(server, s, events[0]);
      AfterArmed(server, Then(server, s, events[0]), events[1..]);
    }
  }

  /** Over every run: a connection that only epoll can wake is armed for output if
      and only if bytes are queued and no report was ignored since the last task,
      and then it is armed for input unless it is to close or the server stops. */
  lemma ArmedExactly(server: Server, events: seq<Event>)
    requires Walks(server) && Possible(server, NewSituation, events)
    requires Asleep(After(server, NewSituation, events))
    ensures var u := After(server, NewSituation, events);
            && (u.watch.output <==> u.link.queued != [] && !u.watch.past.missed)
            && (u.watch.input || u.watch.output <==> !u.watch.past.missed)
            && (!u.watch.past.missed && (u.link.queued == [] || (!u.link.closing && !u.watch.past.stopped)) ==>
                  u.watch.input)
  {
    hide Walks, Possible, After;
    AfterArmed(server, NewSituation, events);
  }

  // ------------------------------------------------------- requests that wait

  /** The parser has nothing to do until more bytes arrive. */
  ghost predicate Served(m: Machine) {
    m.buf == [] || Run(m).0 == NeedMore
  }

  /** A parser that waits still waits when it is called again. */
  lemma WaitsAgain(m: Machine)
    requires Run(m).0 == NeedMore
    ensures Served(Run(m).1)
  {
    Resume(m, []);
    assert Fed(m, []) == m && Fed(Run(m).1, []) == Run(m).1;
  }

  /** There are more replies than before, and the last one closes. */
  predicate LastCloses(server: Server, replies: seq<Reply>, before: nat) {
    |replies| > before && Closes(server, replies[|replies| - 1])
  }

  /** It is the answer to a request, and no refusal. */
  predicate LastAnswers(replies: seq<Reply>) {
    replies != [] && replies[|replies| - 1].Answer?
  }

  lemma TurnServes(server: Server, l: Link)
    requires Walks(server)
    ensures var (next, turn) := TurnOf(server, l);
            && |next.replies| == (if turn == Waiting then |l.replies| else |l.replies| + 1) && next.sent == l.sent
            && (turn == Waiting ==> Served(next.m))
            && (turn == Closing || turn == Refused <==> LastCloses(server, next.replies, |l.replies|))
            && (turn == Closing ==> LastAnswers(next.replies)) && (turn == Refused ==> !LastAnswers(next.replies))
  {
    if Run(l.m).0 == NeedMore {
      WaitsAgain(l.m);
    }
    RefusalsClose(server);
    hide Walks, Run, Closes, WireOf, Fresh, Served;
  }

  lemma {:induction false} LoopServes(server: Server, l: Link, n: nat)
    requires Walks(server) && n > 0
    ensures var r := LoopOf(server, l, n);
            && |l.replies| <= |r.link.replies| <= |l.replies| + n && r.link.sent == l.sent
            && (r.turn == Waiting ==> Served(r.link.m))
            && (r.more <==> r.turn == Answered) && (r.more ==> |r.link.replies| == |l.replies| + n)
            && (r.turn == Waiting ==> |r.link.replies| < |l.replies| + n)
            && (r.turn == Closing || r.turn == Refused <==> LastCloses(server, r.link.replies, |l.replies|))
            && (r.turn == Closing ==> LastAnswers(r.link.replies))
            && (r.turn == Refused ==> !LastAnswers(r.link.replies))
    decreases n
  {
    hide Walks, TurnOf, Closes, Run;
    if l.m.buf != [] {
      TurnServes(server, l);
      var (next, turn) := TurnOf(server, l);
      if turn == Answered && n > 1 {
        LoopServes(server, next, n - 1);
        LoopExtends(server, next, n - 1);
      }
    }
  }

  /** Something will look at the buffer again. */
  predicate Scheduled(w: Watch) {
    w.calls > 0 || w.readTasks > 0
  }

  /** A connection that is to go on: no task has asked for its removal, no closing
      reply waits, the server runs. */
  predicate GoesOn(s: Situation) {
    s.watch.present && !s.watch.past.doomed && !s.link.closing && !s.watch.past.stopped
  }

  lemma ThenServed(server: Server, s: Situation, e: Event)
    requires Walks(server) && CanHappen(s.watch, e)
    requires GoesOn(s) ==> Scheduled(s.watch) || Served(s.link.m)
    ensures var u := Then(server, s, e); GoesOn(u) ==> Scheduled(u.watch) || Served(u.link.m)
  {
    hide Walks, LoopOf, FlushOf, AfterDrain, Served;
    if e.Read? {
      LoopServes(server, AfterDrain(s.link, e.received), MAX_REQUESTS_PER_PASS);
    }
  }

  lemma {:induction false} AfterServed(server: Server, s: Situation, events: seq<Event>)
    requires Walks(server) && Possible(server, s, events)
    requires GoesOn(s) ==> Scheduled(s.watch) || Served(s.link.m)
    ensures var u := After(server, s, events); GoesOn(u) ==> Scheduled(u.watch) || Served(u.link.m)
    decreases |events|
  {
    hide Walks, Then, CanHappen, GoesOn, Scheduled, Served;
    if events != [] {
      ThenServed(server, s, events[0]);
      AfterServed(server, Then(server, s, events[0]), events[1..]);
    }
  }

  /** Over every run: while a connection goes on, no complete request, and no bad
      one, lies in its buffer without a task or a resubmission to come, wherever
      the cut after 51 requests fell. */
  lemma NoRequestForgotten(server: Server, events: seq<Event>)
    requires Walks(server) && Possible(server, NewSituation, events)
    ensures var u := After(server, NewSituation, events);
            GoesOn(u) && u.watch.readTasks == 0 && u.watch.calls == 0 ==>
              u.link.m.buf == [] || Run(u.link.m).0 == NeedMore
  {
    hide Walks, Possible, After, GoesOn, Run;
    assert Served(NewLink.m);
    AfterServed(server, NewSituation, events);
  }

  /** A read task resubmits itself if and only if it has answered 51 requests and
      goes on while the server runs. */
  lemma ResubmitsExactly(server: Server, s: Situation, e: Event)
    requires Walks(server) && CanHappen(s.watch, e) && e.Read?
    ensures var u := Then(server, s, e);
            u.watch.calls == s.watch.calls + (if
              && e.ending == WouldBlock && e.running && !u.watch.past.asked
              && |u.link.replies| == |s.link.replies| + MAX_REQUESTS_PER_PASS
              && !LastCloses(server, u.link.replies, |s.link.replies|)
            then 1 else 0)
  {
    hide Walks, LoopOf, FlushOf, LastCloses;
    var drained := AfterDrain(s.link, e.received);
    LoopServes(server, drained, MAX_REQUESTS_PER_PASS);
    assert e.ending == WouldBlock ==>
             Then(server, s, e).link.replies == LoopOf(server, drained, MAX_REQUESTS_PER_PASS).link.replies;
  }

  // ------------------------------------------------------------------ removal

  /** The results of `send` end with a failure before these bytes are sent. */
  ghost predicate SendFails(bytes: Buffer, sends: seq<int>) {
    exists k :: 0 <= k < |sends| && Takes(sends, k) && sends[k] < -1 && Sum(sends[..k]) < |bytes|
  }

  /** The first `k` calls take something. */
  predicate Takes(sends: seq<int>, k: nat) {
    k <= |sends| && forall i :: 0 <= i < k ==> sends[i] > 0
  }

  /** The first call that takes nothing. */
  function Stop(sends: seq<int>): (k: nat)
    ensures Takes(sends, k) && (k < |sends| ==> sends[k] <= 0)
  {
    if sends == [] || sends[0] <= 0 then 0
    else
      var k := 1 + Stop(sends[1..]);
      assert forall i :: 0 < i < k ==> sends[i] == sends[1..][i - 1];
      k
  }

  lemma FailsExactly(bytes: Buffer, sends: seq<int>)
    ensures FlushOf(bytes, sends).error <==> SendFails(bytes, sends)
  {
    hide FlushOf, Sum;
    FlushTakes(bytes, sends, Stop(sends));
    forall k | 0 <= k < |sends| && Takes(sends, k) && sends[k] < -1
      ensures k == Stop(sends)
    {
    }
  }

  /** What a task had to send: what it sent, and what is left. */
  ghost function ToSend(s: Situation, u: Situation): Buffer
    requires |s.link.sent| <= |u.link.sent|
  {
    u.link.sent[|s.link.sent|..] + u.link.queued
  }

  /** Which tasks ask for the removal of the connection, and which set the flag. A
      read task: at the end of the stream, when sending fails, after a refusal, and
      after a closing answer that is sent completely; one that is not sets the
      flag. A write task: when sending fails, and with everything sent if the flag
      is set or the server stops. */
  lemma AskedExactly(server: Server, s: Situation, e: Event)
    requires Walks(server) && CanHappen(s.watch, e) && (e.Read? || e.Write?)
    ensures var u := Then(server, s, e);
            && |s.link.sent| <= |u.link.sent|
            && (SendFails(ToSend(s, u), e.sends) ==> u.link.queued != [])
            && var fails := SendFails(ToSend(s, u), e.sends);
               var closes := e.Read? && e.ending == WouldBlock && LastCloses(server, u.link.replies, |s.link.replies|);
               && (u.watch.past.asked <==>
                     || (e.Read? && e.ending != WouldBlock) || fails
                     || (closes && (!LastAnswers(u.link.replies) || u.link.queued == []))
                     || (e.Write? && u.link.queued == [] && (s.link.closing || !e.running)))
               && (u.link.closing <==>
                     s.link.closing || (closes && LastAnswers(u.link.replies) && u.link.queued != [] && !fails))
  {
    hide Walks, LoopOf, FlushOf, LastCloses, SendFails, ToSend, LastAnswers;
    var l := s.link;
    if e.Read? {
      var drained := AfterDrain(s.link, e.received);
      LoopServes(server, drained, MAX_REQUESTS_PER_PASS);
      LoopClosing(server, drained, MAX_REQUESTS_PER_PASS);
      l := LoopOf(server, drained, MAX_REQUESTS_PER_PASS).link;
    }
    FlushedAgain(s, Then(server, s, e), l.queued, e.sends);
  }

  lemma FlushedAgain(s: Situation, u: Situation, queued: Buffer, sends: seq<int>)
    ensures var f := FlushOf(queued, sends);
            u.link.sent == s.link.sent + f.taken && u.link.queued == f.left ==>
              && |s.link.sent| <= |u.link.sent| && (f.error <==> SendFails(ToSend(s, u), sends))
              && (f.error ==> u.link.queued != [])
    ensures u.link.sent == s.link.sent ==>
              |s.link.sent| <= |u.link.sent| && (SendFails(ToSend(s, u), sends) ==> u.link.queued != [])
  {
    hide SendFails, FlushOf;
    var f := FlushOf(queued, sends);
    FailsExactly(queued, sends);
    if u.link.sent == s.link.sent + f.taken && u.link.queued == f.left {
      assert (s.link.sent + f.taken)[|s.link.sent|..] == f.taken;
    }
    FailsExactly(u.link.queued, sends);
    if u.link.sent == s.link.sent {
      assert ToSend(s, u) == u.link.queued;
    }
  }

  /** A task that leaves a connection with the flag set and nothing to send asks for
      its removal, unless it is a read task that has closed nothing itself. */
  lemma LingersExactly(server: Server, s: Situation, e: Event)
    requires Walks(server) && CanHappen(s.watch, e) && (e.Read? || e.Write?)
    requires var u := Then(server, s, e); u.link.closing && u.link.queued == []
    ensures var u := Then(server, s, e);
            !u.watch.past.asked <==>
              e.Read? && e.ending == WouldBlock && !LastCloses(server, u.link.replies, |s.link.replies|)
  {
    hide Walks, Then, LastCloses, LastAnswers;
    AskedExactly(server, s, e);
  }

  // ------------------------------------------------------------- two runs

  /** It does linger: while a closing response waits, the write task arms input
      again, and a read task that finds no request sends the rest and waits for
      input. */
  lemma LingersOpen(server: Server)
    requires Walks(server) && server.allow(0)
    ensures exists u :: Leads(server, NewSituation, u) && Asleep(u) && u.link.closing && u.link.queued == [] &&
              u.watch.input && !u.watch.output
  {
    hide Walks, Fresh, Leads;
    var s := WaitsToClose(server);
    hide AfterDrain;
    var sends := [|s.link.queued|];
    LeadsThen(server, NewSituation, s, Report(true, false, true));
    var s1 := Then(server, s, Report(true, false, true));
    SilentRead(server, s1.link, sends);
    LeadsThen(server, NewSituation, s1, Read([], WouldBlock, sends, true));
    var u := Then(server, s1, Read([], WouldBlock, sends, true));
    assert Asleep(u);
  }

  /** A closing response half sent, nothing to parse, and epoll armed for input. */
  lemma WaitsToClose(server: Server) returns (s: Situation)
    requires Walks(server) && server.allow(0)
    ensures Leads(server, NewSituation, s) && Asleep(s) && s.link.closing && s.link.queued != []
    ensures s.watch.input && s.link.m == Fresh([])
  {
    hide Walks, Meaning, Fresh, Closes, Leads;
    var s1 := OldGetEvents(server, NewSituation);
    s := ArmsInputAgain(server, s1);
    LeadsTrans(server, NewSituation, s1, s);
  }

  lemma SilentRead(server: Server, l: Link, sends: seq<int>)
    requires Walks(server) && l.m == Fresh([]) && l.queued != [] && sends == [|l.queued|]
    ensures LoopOf(server, AfterDrain(l, []), MAX_REQUESTS_PER_PASS) == Looped(AfterDrain(l, []), Waiting, false)
    ensures AfterDrain(l, []) == l && FlushOf(l.queued, sends) == Flushed(l.queued, [], false)
  {
  }

  /** A stopping server can leave bytes unsent: a report of input, which it ignores,
      has disarmed output. */
  lemma StoppingStrands(server: Server)
    requires Walks(server) && server.allow(0)
    ensures exists u :: Leads(server, NewSituation, u) && Asleep(u) && u.link.queued != [] &&
              !u.watch.input && !u.watch.output
  {
    hide Walks, Fresh, Leads;
    var s := WaitsToClose(server);
    LeadsThen(server, NewSituation, s, Report(true, false, false));
    var u := Then(server, s, Report(true, false, false));
    assert Asleep(u);
  }

  // ------------------------------------------------------------------ the limiter

  /** Whom the limiter allows is answered, and only whom it does not gets a 429. */
  ghost predicate Limits(server: Server, replies: seq<Reply>) {
    forall n :: 0 <= n < |replies| ==>
      (replies[n].Answer? ==> server.allow(n)) && (replies[n].TooManyRequests? ==> !server.allow(n))
  }

  lemma {:induction false} LoopLimits(server: Server, l: Link, n: nat)
    requires Walks(server) && Limits(server, l.replies)
    ensures Limits(server, LoopOf(server, l, n).link.replies)
    decreases n
  {
    hide Walks, Run, WireOf, Closes, Fresh;
    if l.m.buf != [] && n > 0 {
      LoopLimits(server, TurnOf(server, l).0, n - 1);
    }
  }

  lemma ThenLimits(server: Server, s: Situation, e: Event)
    requires Walks(server) && CanHappen(s.watch, e) && Limits(server, s.link.replies)
    ensures Limits(server, Then(server, s, e).link.replies)
  {
    hide Walks, LoopOf, FlushOf, Limits;
    if e.Read? {
      LoopLimits(server, AfterDrain(s.link, e.received), MAX_REQUESTS_PER_PASS);
    }
  }

  /** Over every run the limiter decides about every request that is parsed. */
  lemma {:induction false} LimitsKept(server: Server, s: Situation, events: seq<Event>)
    requires Walks(server) && Possible(server, s, events) && Limits(server, s.link.replies)
    ensures Limits(server, After(server, s, events).link.replies)
    decreases |events|
  {
    hide Walks, Then, CanHappen, Limits;
    if events != [] {
      ThenLimits(server, s, events[0]);
      LimitsKept(server, Then(server, s, events[0]), events[1..]);
    }
  }
}
