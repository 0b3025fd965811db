/**
 When the bounded writer takes a frame on, and why a connection ends. The laws of the writer say what
 never goes wrong; these lemmas say what it does, in terms of its fields and the output's answers.
 */
module SseWriterEnds {
  import opened SseFrames
  import opened SseWriter

  // ------------------------------------------------------------------ one write

  /** There is no room behind the backpressure: 256 frames, or 4 MiB. */
  predicate Overflows(c: Conn, q: QueuedFrame) {
    |c.queue| + 1 > 256 || c.queuedBytes + q.bytes > 4194304
  }

  /** The frame of an event: its text, the size of the text in UTF-8, and whether it ends a session. */
  lemma QueuedSpelled(e: Event)
    ensures Queued(e).frame == EventFrame(e) && Queued(e).bytes == Utf8Length(EventFrame(e))
    ensures Queued(e).terminal <==> e.kind in {"session.completed", "session.failed", "session.cancelled"}
  {
  }

  /** UTF-8 sizes add up, and a character takes one to four bytes by its code point. */
  lemma {:induction false} Utf8Adds(a: string, b: string)
    ensures Utf8Length(a + b) == Utf8Length(a) + Utf8Length(b)
  {
    if a == "" {
      assert a + b == b;
    } else {
      assert (a + b)[1..] == a[1..] + b;
      Utf8Adds(a[1..], b);
    }
  }

  lemma Utf8OfOne(c: char)
    ensures Utf8Length([c]) == if c as int < 128 then 1 else if c as int < 2048 then 2 else if c as int < 65536 then 3 else 4
  {
    assert [c][1..] == "";
  }

  /** A write to an open writer that has seen no terminal event, case by case. */
  lemma WriteTakesEffect(c: Conn, q: QueuedFrame, output: Output)
    requires Law(c) && !c.closed && !c.terminalReceived
    ensures var c' := Written(c, q, output);
            && (c.backpressured && !Overflows(c, q) ==>
                  && c' == c.(queue := c.queue + [q], queuedBytes := c.queuedBytes + q.bytes,
                              accepted := c.accepted + [q], terminalReceived := q.terminal)
                  && !c'.closed)
            && (c.backpressured && Overflows(c, q) ==> c'.closed && c'.accepted == c.accepted && c'.trace == c.trace + [Ended])
            && (!c.backpressured ==>
                  c'.accepted == c.accepted + [q] && c.trace + [SentFrame(q, output(|c.trace|).reply)] <= c'.trace)
  {
    if !c.backpressured {
      var c1 := c.(terminalReceived := q.terminal, accepted := c.accepted + [q]);
      PendingOpen(c, q, c1);
      HandedOffKeeps(c1, q, output);
    }
  }

  /** Nothing else is taken on: after a terminal event or the end a write changes nothing. */
  lemma LateWriteChangesNothing(c: Conn, q: QueuedFrame, output: Output)
    requires c.closed || c.terminalReceived
    ensures Written(c, q, output) == c
  {
  }

  /** Opening a connection that is neither closed nor blocked sends the comment. */
  lemma StartTakesEffect(c: Conn, output: Output)
    requires Law(c) && !c.closed && !c.backpressured
    ensures c.trace + [SentComment(output(|c.trace|).reply)] <= Started(c, output).trace
  {
  }

  // ------------------------------------------------------------------ what the output can end

  predicate Sent(a: Action) {
    a.SentComment? || a.SentFrame?
  }

  /** The output threw, took the terminal frame, or pushed back and threw when asked for the drain. */
  predicate EndsIt(a: Action, armThrows: bool) {
    && Sent(a)
    && (a.reply.Throws? || (a.SentFrame? && a.frame.terminal && a.reply.Accepts?) || (a.reply.PushesBack? && armThrows))
  }

  ghost predicate OutputEnds(trace: seq<Action>, start: nat, output: Output) {
    exists j :: start <= j < |trace| && EndsIt(trace[j], output(j).armThrows)
  }

  /** One action, then perhaps the end, and the end exactly when that action ends it. */
  ghost predicate OneSend(c: Conn, a: Action, c': Conn, armThrows: bool) {
    && Sent(a)
    && c'.trace == c.trace + [a] + (if c'.closed then [Ended] else [])
    && (c'.closed <==> EndsIt(a, armThrows))
  }

  lemma HandedOffEnds(c: Conn, q: QueuedFrame, output: Output)
    requires Open(c, [q]) && !c.backpressured
    ensures OneSend(c, SentFrame(q, output(|c.trace|).reply), HandedOff(c, q, output), output(|c.trace|).armThrows)
  {
    assert c.trace + [SentFrame(q, output(|c.trace|).reply)] + [] == c.trace + [SentFrame(q, output(|c.trace|).reply)];
  }

  lemma StartedEnds(c: Conn, output: Output)
    requires Open(c, []) && !c.backpressured
    ensures OneSend(c, SentComment(output(|c.trace|).reply), Started(c, output), output(|c.trace|).armThrows)
  {
    NoEndYet(c.trace + [SentComment(output(|c.trace|).reply)]);
    match output(|c.trace|).reply
    case Throws =>
    case Accepts =>
    case PushesBack =>
  }

  lemma NoEndYet(trace: seq<Action>)
    ensures trace + [] == trace
  {
  }

  lemma OneSendEnds(c: Conn, a: Action, c': Conn, output: Output)
    requires OneSend(c, a, c', output(|c.trace|).armThrows)
    ensures c'.closed <==> OutputEnds(c'.trace, |c.trace|, output)
    ensures c.trace <= c'.trace
  {
    assert c'.trace[|c.trace|] == a;
  }

  /** A flush ends the connection exactly when one of its sends does. */
  lemma {:induction false} FlushEnds(c: Conn, output: Output, c': Conn)
    requires Working(c) && !c.closed && c' == Flushed(c, output)
    ensures c.trace <= c'.trace && (c'.closed <==> OutputEnds(c'.trace, |c.trace|, output))
    decreases |c.queue|
  {
    if CanSend(c) {
      var q, c1 := c.queue[0], Turn(c, output);
      TurnKeeps(c, output);
      TurnOpens(c, q, Popped(c));
      HandedOffEnds(Popped(c), q, output);
      OneSendEnds(c, SentFrame(q, output(|c.trace|).reply), c1, output);
      if c1.closed {
        assert c' == c1;
      } else {
        FlushEnds(c1, output, c');
        LaterSends(c, c1, c', SentFrame(q, output(|c.trace|).reply), output);
      }
    }
  }

  lemma LaterSends(c: Conn, c1: Conn, c': Conn, a: Action, output: Output)
    requires c1.trace == c.trace + [a] && c1.trace <= c'.trace && !EndsIt(a, output(|c.trace|).armThrows)
    ensures OutputEnds(c'.trace, |c.trace|, output) <==> OutputEnds(c'.trace, |c1.trace|, output)
  {
    assert c'.trace[|c.trace|] == a;
  }

  // ------------------------------------------------------------------ why a connection ends

  /** The last frame handed over was a terminal one that the output pushed back: the drain will end it. */
  predicate AwaitsEnd(c: Conn) {
    c.backpressured && Handed(c.trace) != [] && Handed(c.trace)[|Handed(c.trace)| - 1].terminal
  }

  predicate SawTerminal(c: Conn) {
    c.accepted != [] && c.accepted[|c.accepted| - 1].terminal
  }

  /** Why a call would end an open connection. */
  ghost predicate Reason(c: Conn, call: Call, output: Output, trace: seq<Action>) {
    match call
    case CloseCall => true
    case FinishReplayCall => !SawTerminal(c)
    case StartCall => OutputEnds(trace, |c.trace|, output)
    case WriteCall(q) => (c.backpressured && !SawTerminal(c) && Overflows(c, q)) || OutputEnds(trace, |c.trace|, output)
    case DrainCall => AwaitsEnd(c) || OutputEnds(trace, |c.trace|, output)
  }

  lemma OpenSpelled(c: Conn)
    requires Law(c) && !c.closed
    ensures c.terminalReceived <==> SawTerminal(c)
    ensures c.backpressured ==> (c.endAfterDrain <==> AwaitsEnd(c))
  {
    ModeTerminal(c.trace);
  }

  lemma WriteEnds(c: Conn, q: QueuedFrame, output: Output)
    requires Law(c) && !c.closed
    ensures var c' := Written(c, q, output);
            c.trace <= c'.trace && (c'.closed <==> Reason(c, WriteCall(q), output, c'.trace))
  {
    OpenSpelled(c);
    if !c.terminalReceived && !c.backpressured {
      var c1 := c.(terminalReceived := q.terminal, accepted := c.accepted + [q]);
      PendingOpen(c, q, c1);
      HandedOffEnds(c1, q, output);
      OneSendEnds(c1, SentFrame(q, output(|c.trace|).reply), Written(c, q, output), output);
    }
  }

  lemma DrainEnds(c: Conn, output: Output)
    requires Law(c) && !c.closed && c.drainArmed
    ensures var c' := AfterDrain(c, output);
            c.trace <= c'.trace && (c'.closed <==> Reason(c, DrainCall, output, c'.trace))
  {
    OpenSpelled(c);
    if !c.endAfterDrain {
      TraceSnoc(c.trace, Drained);
      var c1 := c.(drainArmed := false, backpressured := false, trace := c.trace + [Drained]);
      assert Handed(c1.trace) == Handed(c.trace);
      FlushEnds(c1, output, Flushed(c1, output));
      AfterDrained(c.trace, Flushed(c1, output).trace, output);
    }
  }

  lemma AfterDrained(before: seq<Action>, trace: seq<Action>, output: Output)
    requires before + [Drained] <= trace
    ensures OutputEnds(trace, |before|, output) <==> OutputEnds(trace, |before| + 1, output)
  {
    assert trace[|before|] == Drained;
  }

  /** A call ends an open connection exactly for one of these reasons. */
  lemma CallEndsExactly(c: Conn, call: Call, output: Output)
    requires Law(c) && !c.closed
    ensures var c' := Applied(c, call, output);
            c.trace <= c'.trace && (c'.closed <==> Reason(c, call, output, c'.trace))
  {
    OpenSpelled(c);
    match call
    case StartCall =>
      if !c.backpressured {
        StartedEnds(c, output);
        OneSendEnds(c, SentComment(output(|c.trace|).reply), Started(c, output), output);
      }
    case WriteCall(q) => WriteEnds(c, q, output);
    case DrainCall => if c.drainArmed { DrainEnds(c, output); }
    case CloseCall =>
    case FinishReplayCall =>
  }

  /** Some call of the connection had a reason to end it. */
  ghost predicate HadReason(calls: seq<Call>, output: Output) {
    exists i :: 0 <= i < |calls| && EndedAt(calls, output, i)
  }

  ghost predicate EndedAt(calls: seq<Call>, output: Output, i: nat)
    requires i < |calls|
  {
    && !Connection(calls[..i], output).closed
    && Reason(Connection(calls[..i], output), calls[i], output, Connection(calls[..i + 1], output).trace)
  }

  lemma StaysClosed(c: Conn, call: Call, output: Output)
    requires Law(c) && c.closed
    ensures Applied(c, call, output).closed
  {
  }

  /**
   A connection is closed exactly when, at one of its calls, it was still open and: it was closed;
   the replay was over with no terminal event; the output threw or took the terminal frame; a drain
   came after the terminal frame; or a write found 256 frames or 4 MiB exceeded.
   */
  lemma {:induction false} ClosedExactly(calls: seq<Call>, output: Output)
    ensures Connection(calls, output).closed <==> HadReason(calls, output)
  {
    if calls != [] {
      var n := |calls| - 1;
      var init := calls[..n];
      ClosedExactly(init, output);
      ConnectionKeepsLaw(init, output);
      ReasonsOfPrefix(calls, output);
      assert calls[..n + 1] == calls;
      if Connection(init, output).closed {
        StaysClosed(Connection(init, output), calls[n], output);
      } else {
        CallEndsExactly(Connection(init, output), calls[n], output);
      }
    }
  }

  lemma ReasonsOfPrefix(calls: seq<Call>, output: Output)
    requires calls != []
    ensures HadReason(calls, output) <==> HadReason(calls[..|calls| - 1], output) || EndedAt(calls, output, |calls| - 1)
  {
    var n := |calls| - 1;
    var init := calls[..n];
    forall i | 0 <= i < n ensures EndedAt(calls, output, i) <==> EndedAt(init, output, i) {
      assert calls[..i] == init[..i] && calls[..i + 1] == init[..i + 1];
    }
    if HadReason(init, output) {
      var i :| 0 <= i < |init| && EndedAt(init, output, i);
      assert EndedAt(calls, output, i);
    }
  }

  // ------------------------------------------------------------------ the trace is what the output said

  ghost predicate Answered(trace: seq<Action>, output: Output) {
    forall j :: 0 <= j < |trace| && Sent(trace[j]) ==> trace[j].reply == output(j).reply
  }

  lemma HandedOffAnswered(c: Conn, q: QueuedFrame, output: Output)
    requires Answered(c.trace, output)
    ensures Answered(HandedOff(c, q, output).trace, output)
  {
    var sent := SentFrame(q, output(|c.trace|).reply);
    AnsweredOneMore(c.trace, sent, output);
    AnsweredOneMore(c.trace + [sent], Ended, output);
  }

  lemma AnsweredOneMore(trace: seq<Action>, act: Action, output: Output)
    requires Answered(trace, output) && (Sent(act) ==> act.reply == output(|trace|).reply)
    ensures Answered(trace + [act], output)
  {
  }

  lemma {:induction false} FlushAnswered(c: Conn, output: Output)
    requires Answered(c.trace, output)
    ensures Answered(Flushed(c, output).trace, output)
    decreases |c.queue|
  {
    if CanSend(c) {
      HandedOffAnswered(Popped(c), c.queue[0], output);
      FlushAnswered(Turn(c, output), output);
    }
  }

  lemma AppliedAnswered(c: Conn, call: Call, output: Output)
    requires Answered(c.trace, output)
    ensures Answered(Applied(c, call, output).trace, output)
  {
    match call
    case WriteCall(q) =>
      if !c.closed && !c.terminalReceived && !c.backpressured {
        HandedOffAnswered(c.(terminalReceived := q.terminal, accepted := c.accepted + [q]), q, output);
      }
    case DrainCall =>
      if !c.closed && c.drainArmed && !c.endAfterDrain {
        FlushAnswered(c.(drainArmed := false, backpressured := false, trace := c.trace + [Drained]), output);
      }
    case _ =>
  }

  /** What the history says the output answered is what it answered. */
  lemma {:induction false} HistoryIsAnswered(calls: seq<Call>, output: Output)
    ensures Answered(Connection(calls, output).trace, output)
  {
    if calls != [] {
      HistoryIsAnswered(calls[..|calls| - 1], output);
      AppliedAnswered(Connection(calls[..|calls| - 1], output), calls[|calls| - 1], output);
    }
  }
}
