/**
 The bounded writer that owns one subscriber's connection.

 The output is an adversary: every write may be accepted, pushed back or throw, registering for the
 drain event may throw, and a drain may come at any time. Everything done to the output is kept in
 `trace` and every frame `write` took on is kept in `accepted`, so the laws speak about whole
 connections: any sequence of calls against any answers of the output.
 */
module SseWriter {
  import opened SseFrames

  const MAX_QUEUED_EVENTS: nat := 256
  const MAX_QUEUED_BYTES: nat := 4 * 1024 * 1024

  predicate TerminalKind(kind: string) {
    kind == "session.completed" || kind == "session.failed" || kind == "session.cancelled"
  }

  function Utf8Length(text: string): nat {
    if text == "" then 0 else
      var c := text[0] as int;
      (if c < 0x80 then 1 else if c < 0x800 then 2 else if c < 0x10000 then 3 else 4) + Utf8Length(text[1..])
  }

  datatype QueuedFrame = QueuedFrame(bytes: nat, frame: string, terminal: bool)

  function Queued(e: Event): QueuedFrame {
    QueuedFrame(Utf8Length(EventFrame(e)), EventFrame(e), TerminalKind(e.kind))
  }

  function SumBytes(queue: seq<QueuedFrame>): nat {
    if queue == [] then 0 else queue[0].bytes + SumBytes(queue[1..])
  }

  lemma {:induction false} SumBytesAppend(queue: seq<QueuedFrame>, q: QueuedFrame)
    ensures SumBytes(queue + [q]) == SumBytes(queue) + q.bytes
  {
    if queue != [] {
      assert (queue + [q])[1..] == queue[1..] + [q];
      SumBytesAppend(queue[1..], q);
    }
  }

  // ------------------------------------------------------------------ the output's side

  datatype Reply = Accepts | PushesBack | Throws

  datatype Action =
    | SentComment(reply: Reply)
    | SentFrame(frame: QueuedFrame, reply: Reply)
    | Drained
    | Ended

  /** The frames handed to the output, in order. */
  function Handed(trace: seq<Action>): seq<QueuedFrame> {
    if trace == [] then [] else
      var last := trace[|trace| - 1];
      Handed(trace[..|trace| - 1]) + (if last.SentFrame? then [last.frame] else [])
  }

  function ActionText(act: Action): string {
    match act
    case SentComment(_) => COMMENT
    case SentFrame(q, _) => q.frame
    case _ => ""
  }

  /** The text written to the output. */
  function Wire(trace: seq<Action>): string {
    if trace == [] then "" else Wire(trace[..|trace| - 1]) + ActionText(trace[|trace| - 1])
  }

  predicate EndsTerminal(frames: seq<QueuedFrame>) {
    frames != [] && frames[|frames| - 1].terminal
  }

  predicate TerminalOnlyLast(frames: seq<QueuedFrame>) {
    frames == [] || (TerminalOnlyLast(frames[..|frames| - 1]) && !EndsTerminal(frames[..|frames| - 1]))
  }

  /** A frame that is not the last one is not terminal. */
  lemma {:induction false} TerminalIsLast(frames: seq<QueuedFrame>, k: nat)
    requires TerminalOnlyLast(frames) && k < |frames| && frames[k].terminal
    ensures k == |frames| - 1
  {
    if k < |frames| - 1 {
      var init := frames[..|frames| - 1];
      TerminalIsLast(init, k);
    }
  }

  /**
   How far a connection has come, read off what the output has seen. `Broken` is every history the
   writer must never produce.
   */
  datatype Mode = Ready(terminalSent: bool) | Blocked(terminalSent: bool) | Over | Broken

  function After(m: Mode, act: Action): Mode {
    match m
    case Ready(terminalSent) =>
      if act.Ended? then Over
      else if act.Drained? || terminalSent then Broken
      else
        var terminal := act.SentFrame? && act.frame.terminal;
        if act.reply.Accepts? then Ready(terminal) else Blocked(terminal)
    case Blocked(terminalSent) =>
      if act.Ended? then Over else if act.Drained? then Ready(terminalSent) else Broken
    case _ => Broken
  }

  function ModeOf(trace: seq<Action>): Mode {
    if trace == [] then Ready(false) else After(ModeOf(trace[..|trace| - 1]), trace[|trace| - 1])
  }

  lemma TraceSnoc(trace: seq<Action>, act: Action)
    ensures Handed(trace + [act]) == Handed(trace) + (if act.SentFrame? then [act.frame] else [])
    ensures ModeOf(trace + [act]) == After(ModeOf(trace), act)
    ensures Wire(trace + [act]) == Wire(trace) + ActionText(act)
  {
    assert (trace + [act])[..|trace|] == trace;
  }

  lemma {:induction false} ModeTerminal(trace: seq<Action>)
    ensures ModeOf(trace).Ready? || ModeOf(trace).Blocked? ==>
              (ModeOf(trace).terminalSent <==> EndsTerminal(Handed(trace)))
  {
    if trace != [] {
      ModeTerminal(trace[..|trace| - 1]);
    }
  }

  predicate Blocking(act: Action) {
    (act.SentComment? || act.SentFrame?) && !act.reply.Accepts?
  }

  predicate SentTerminal(act: Action) {
    act.SentFrame? && act.frame.terminal
  }

  /** The same laws spelled out over positions of the trace. */
  ghost predicate OrderlyTrace(trace: seq<Action>) {
    // nothing follows the end, which comes at most once
    && (forall i :: 0 <= i < |trace| - 1 ==> !trace[i].Ended?)
    // nothing but a drain and the end follows a terminal frame
    && (forall i, j :: 0 <= i < j < |trace| && SentTerminal(trace[i]) ==> trace[j].Drained? || trace[j].Ended?)
    // after a push-back or a throw, nothing is sent before the next drain
    && (forall i :: 0 <= i < |trace| - 1 && Blocking(trace[i]) ==> trace[i + 1].Drained? || trace[i + 1].Ended?)
  }

  ghost predicate TerminalSent(trace: seq<Action>) {
    exists i :: 0 <= i < |trace| && SentTerminal(trace[i])
  }

  lemma {:induction false} UnbrokenIsOrderly(trace: seq<Action>)
    requires !ModeOf(trace).Broken?
    ensures OrderlyTrace(trace)
    ensures ModeOf(trace).Over? <==> trace != [] && trace[|trace| - 1].Ended?
    ensures ModeOf(trace).Blocked? <==> trace != [] && Blocking(trace[|trace| - 1])
    ensures TerminalSent(trace) && !ModeOf(trace).Over? ==> ModeOf(trace).terminalSent
  {
    if trace != [] {
      var init, act := trace[..|trace| - 1], trace[|trace| - 1];
      UnbrokenIsOrderly(init);
      assert trace == init + [act];
      assert TerminalSent(trace) <==> TerminalSent(init) || SentTerminal(act) by { TerminalSentOneMore(init, act); }
      OrderlyOneMore(init, act);
    }
  }

  lemma TerminalSentOneMore(init: seq<Action>, act: Action)
    ensures TerminalSent(init + [act]) <==> TerminalSent(init) || SentTerminal(act)
  {
    var trace := init + [act];
    assert trace[|init|] == act;
    if i :| 0 <= i < |init| && SentTerminal(init[i]) { assert trace[i] == init[i]; }
  }

  lemma OrderlyOneMore(init: seq<Action>, act: Action)
    requires OrderlyTrace(init)
    requires init != [] ==> !init[|init| - 1].Ended?
    requires TerminalSent(init) ==> act.Drained? || act.Ended?
    requires init != [] && Blocking(init[|init| - 1]) ==> act.Drained? || act.Ended?
    ensures OrderlyTrace(init + [act])
  {
    var trace := init + [act];
    forall i, j | 0 <= i < j < |trace| && SentTerminal(trace[i]) ensures trace[j].Drained? || trace[j].Ended? {
      assert SentTerminal(init[i]);
    }
  }

  // ------------------------------------------------------------------ the writer's state

  /** The answer of the output to its n-th action, and whether registering for the drain then throws. */
  datatype Answer = Answer(reply: Reply, armThrows: bool)

  type Output = nat -> Answer

  datatype Conn = Conn(
    queue: seq<QueuedFrame>,
    queuedBytes: int,
    backpressured: bool,
    drainArmed: bool,
    terminalReceived: bool,
    endAfterDrain: bool,
    closed: bool,
    closeCalls: nat,             // how often onClose ran
    trace: seq<Action>,          // everything the output saw
    accepted: seq<QueuedFrame>)  // every frame write took on

  const OPENED: Conn := Conn([], 0, false, false, false, false, false, 0, [], [])

  function Finished(c: Conn): Conn {
    if c.closed then c else
      c.(closed := true, queue := [], queuedBytes := 0, drainArmed := false,
         closeCalls := c.closeCalls + 1, trace := c.trace + [Ended])
  }

  function Armed(c: Conn, throws: bool): Conn {
    if c.closed || c.drainArmed then c
    else if throws then Finished(c.(drainArmed := true))
    else c.(drainArmed := true)
  }

  function HandedOff(c: Conn, q: QueuedFrame, output: Output): Conn {
    var answer := output(|c.trace|);
    var sent := c.(trace := c.trace + [SentFrame(q, answer.reply)]);
    match answer.reply
    case Throws => Finished(sent)
    case Accepts => if q.terminal then Finished(sent) else sent
    case PushesBack => Armed(sent.(backpressured := true, endAfterDrain := q.terminal), answer.armThrows)
  }

  function Started(c: Conn, output: Output): Conn {
    if c.closed || c.backpressured then c else
      var answer := output(|c.trace|);
      var sent := c.(trace := c.trace + [SentComment(answer.reply)]);
      match answer.reply
      case Throws => Finished(sent)
      case Accepts => sent
      case PushesBack => Armed(sent.(backpressured := true), answer.armThrows)
  }

  function Written(c: Conn, q: QueuedFrame, output: Output): Conn {
    if c.closed || c.terminalReceived then c else
      var c1 := c.(terminalReceived := q.terminal);
      if c.backpressured then
        if |c.queue| >= MAX_QUEUED_EVENTS || c.queuedBytes + q.bytes > MAX_QUEUED_BYTES then
          Finished(c1.(queue := [], queuedBytes := 0))
        else
          c1.(queue := c.queue + [q], queuedBytes := c.queuedBytes + q.bytes, accepted := c.accepted + [q])
      else
        HandedOff(c1.(accepted := c.accepted + [q]), q, output)
  }

  /** One turn of the draining loop. */
  function Turn(c: Conn, output: Output): (c': Conn)
    requires c.queue != []
    ensures |c'.queue| < |c.queue|
  {
    HandedOff(Popped(c), c.queue[0], output)
  }

  function Popped(c: Conn): Conn
    requires c.queue != []
  {
    c.(queue := c.queue[1..], queuedBytes := c.queuedBytes - c.queue[0].bytes)
  }

  predicate CanSend(c: Conn) {
    !c.closed && !c.backpressured && c.queue != []
  }

  function Flushed(c: Conn, output: Output): Conn
    decreases |c.queue|
  {
    if CanSend(c) then Flushed(Turn(c, output), output) else c
  }

  function AfterDrain(c: Conn, output: Output): Conn {
    if c.closed then c.(drainArmed := false) else
      var c1 := c.(drainArmed := false, backpressured := false, trace := c.trace + [Drained]);
      if c.endAfterDrain then Finished(c1) else Flushed(c1, output)
  }

  function ReplayFinished(c: Conn): Conn {
    if c.terminalReceived then c else Finished(c)
  }

  // ------------------------------------------------------------------ the connection law

  predicate Bounded(c: Conn) {
    c.queuedBytes == SumBytes(c.queue) <= MAX_QUEUED_BYTES && |c.queue| <= MAX_QUEUED_EVENTS
  }

  /** An open writer; `pending` has left the queue but has not been handed over. */
  predicate Open(c: Conn, pending: seq<QueuedFrame>) {
    && !c.closed && c.closeCalls == 0 && Bounded(c)
    && TerminalOnlyLast(c.accepted)
    && (c.terminalReceived <==> EndsTerminal(c.accepted))
    && (c.drainArmed <==> c.backpressured)
    && ModeOf(c.trace) == (if c.backpressured then Blocked(c.endAfterDrain) else Ready(c.endAfterDrain))
    && Handed(c.trace) + (pending + c.queue) == c.accepted
  }

  predicate Shut(c: Conn) {
    && c.closed && c.closeCalls == 1 && c.queue == [] && c.queuedBytes == 0 && !c.drainArmed
    && ModeOf(c.trace) == Over
    && TerminalOnlyLast(c.accepted)
    && Handed(c.trace) <= c.accepted
  }

  /** An open writer inside a call, when the queue may still hold frames that can be sent. */
  predicate Working(c: Conn) {
    Open(c, []) && (!c.backpressured ==> !c.endAfterDrain)
  }

  /**
   What holds between any two calls: the output saw an unbroken history, what it was handed is a
   prefix of what was accepted and the queue is exactly the rest, the queue is within its bounds with
   an exact byte count, an open writer that is not backpressured has nothing queued, a backpressured
   one waits for a drain, and the end and onClose happened exactly when the writer is closed.
   */
  predicate Law(c: Conn) {
    Shut(c) || (Working(c) && (!c.backpressured ==> c.queue == []))
  }

  lemma FinishedShut(c: Conn)
    requires !c.closed && c.closeCalls == 0 && (ModeOf(c.trace).Ready? || ModeOf(c.trace).Blocked?)
    requires TerminalOnlyLast(c.accepted) && Handed(c.trace) <= c.accepted
    ensures Shut(Finished(c)) && Handed(Finished(c).trace) == Handed(c.trace)
  {
    TraceSnoc(c.trace, Ended);
  }

  /** A frame that has just been handed over was the terminal one: nothing can be left. */
  lemma TerminalEndsQueue(handed: seq<QueuedFrame>, queue: seq<QueuedFrame>, accepted: seq<QueuedFrame>)
    requires handed + queue == accepted && TerminalOnlyLast(accepted) && EndsTerminal(handed)
    ensures queue == [] && handed == accepted
  {
    assert accepted[|handed| - 1] == handed[|handed| - 1];
    TerminalIsLast(accepted, |handed| - 1);
  }

  /** Pushed back: either the drain is awaited, or registering threw and the writer shut. */
  lemma ArmedKeeps(c: Conn, throws: bool)
    requires Open(c.(drainArmed := true), []) && c.backpressured && !c.drainArmed
    ensures var c' := Armed(c, throws);
            && (Shut(c') || (Working(c') && c'.queue == c.queue && c'.backpressured))
            && c'.accepted == c.accepted && Handed(c'.trace) == Handed(c.trace) && c.trace <= c'.trace
            && c'.terminalReceived == c.terminalReceived
  {
    if throws { FinishedShut(c.(drainArmed := true)); }
  }

  /** The state right after a frame went out, before its answer has been acted on. */
  lemma SentKeeps(c: Conn, q: QueuedFrame, reply: Reply)
    requires Open(c, [q]) && !c.backpressured && !c.endAfterDrain
    ensures var sent := c.(trace := c.trace + [SentFrame(q, reply)]);
            && ModeOf(sent.trace) == (if reply.Accepts? then Ready(q.terminal) else Blocked(q.terminal))
            && Handed(sent.trace) == Handed(c.trace) + [q]
            && Handed(sent.trace) + ([] + c.queue) == c.accepted
  {
    TraceSnoc(c.trace, SentFrame(q, reply));
    Regroups(Handed(c.trace), q, c.queue);
  }

  lemma Regroups<T>(handed: seq<T>, q: T, queue: seq<T>)
    ensures handed + ([q] + queue) == handed + [q] + ([] + queue)
  {
  }

  predicate HandedOffWell(c: Conn, q: QueuedFrame, reply: Reply, c': Conn) {
    && (Shut(c') || (Working(c') && c'.queue == c.queue))
    && c'.accepted == c.accepted && c'.terminalReceived == c.terminalReceived
    && Handed(c'.trace) == Handed(c.trace) + [q]
    && c.trace + [SentFrame(q, reply)] <= c'.trace
    && (reply.Accepts? ==> !c'.backpressured && c'.closed == q.terminal)
  }

  lemma HandedOffKeeps(c: Conn, q: QueuedFrame, output: Output)
    requires Open(c, [q]) && !c.backpressured && !c.endAfterDrain
    ensures HandedOffWell(c, q, output(|c.trace|).reply, HandedOff(c, q, output))
  {
    var answer := output(|c.trace|);
    var sent := c.(trace := c.trace + [SentFrame(q, answer.reply)]);
    SentKeeps(c, q, answer.reply);
    match answer.reply
    case PushesBack => PushedBack(c, q, sent, answer.armThrows);
    case Accepts => TakenKeeps(c, q, sent);
    case Throws => FinishedShut(sent);
  }

  lemma TakenKeeps(c: Conn, q: QueuedFrame, sent: Conn)
    requires Open(c, [q]) && !c.backpressured && !c.endAfterDrain
    requires sent == c.(trace := c.trace + [SentFrame(q, Accepts)])
    ensures HandedOffWell(c, q, Accepts, if q.terminal then Finished(sent) else sent)
  {
    SentKeeps(c, q, Accepts);
    if q.terminal { FinishedShut(sent); }
  }

  lemma PushedBack(c: Conn, q: QueuedFrame, sent: Conn, throws: bool)
    requires Open(c, [q]) && !c.backpressured && !c.endAfterDrain
    requires sent == c.(trace := c.trace + [SentFrame(q, PushesBack)])
    ensures HandedOffWell(c, q, PushesBack, Armed(sent.(backpressured := true, endAfterDrain := q.terminal), throws))
  {
    SentKeeps(c, q, PushesBack);
    ArmedKeeps(sent.(backpressured := true, endAfterDrain := q.terminal), throws);
  }

  lemma StartedKeeps(c: Conn, output: Output)
    requires Law(c)
    ensures Law(Started(c, output)) && Started(c, output).accepted == c.accepted
    ensures Started(c, output).terminalReceived == c.terminalReceived && (c.closed ==> Started(c, output).closed)
  {
    if !c.closed && !c.backpressured {
      var answer := output(|c.trace|);
      TraceSnoc(c.trace, SentComment(answer.reply));
      var sent := c.(trace := c.trace + [SentComment(answer.reply)]);
      assert Handed(sent.trace) == Handed(c.trace);
      match answer.reply
      case PushesBack => ArmedKeeps(sent.(backpressured := true), answer.armThrows);
      case Accepts =>
      case Throws => FinishedShut(sent);
    }
  }

  lemma WrittenKeeps(c: Conn, q: QueuedFrame, output: Output)
    requires Law(c)
    ensures Law(Written(c, q, output))
  {
    if !c.closed && !c.terminalReceived {
      if c.backpressured { WrittenToQueue(c, q, output); } else { WrittenThrough(c, q, output); }
    }
  }

  /** Behind backpressure a frame is queued, or the writer gives up. */
  lemma WrittenToQueue(c: Conn, q: QueuedFrame, output: Output)
    requires Law(c) && !c.closed && !c.terminalReceived && c.backpressured
    ensures var c' := Written(c, q, output);
            Law(c') && (c'.accepted == c.accepted + [q] || (c'.accepted == c.accepted && c'.closed))
  {
    if |c.queue| >= MAX_QUEUED_EVENTS || c.queuedBytes + q.bytes > MAX_QUEUED_BYTES {
      FinishedShut(c.(terminalReceived := q.terminal, queue := [], queuedBytes := 0));
    } else {
      SumBytesAppend(c.queue, q);
      Snoc(c.accepted, q);
      assert Handed(c.trace) + ([] + (c.queue + [q])) == Handed(c.trace) + ([] + c.queue) + [q];
    }
  }

  lemma WrittenThrough(c: Conn, q: QueuedFrame, output: Output)
    requires Law(c) && !c.closed && !c.terminalReceived && !c.backpressured
    ensures Law(Written(c, q, output)) && Written(c, q, output).accepted == c.accepted + [q]
  {
    var c1 := c.(terminalReceived := q.terminal, accepted := c.accepted + [q]);
    PendingOpen(c, q, c1);
    HandedOffKeeps(c1, q, output);
  }

  lemma PendingOpen(c: Conn, q: QueuedFrame, c1: Conn)
    requires Working(c) && !c.terminalReceived && c.queue == [] && c1 == c.(terminalReceived := q.terminal, accepted := c.accepted + [q])
    ensures Open(c1, [q])
  {
    Snoc(c.accepted, q);
    MovesBehind(Handed(c.trace), c.queue, q);
  }

  lemma Snoc<T>(s: seq<T>, x: T)
    ensures (s + [x])[..|s|] == s && (s + [x])[|s + [x]| - 1] == x
  {
  }

  lemma MovesBehind<T>(handed: seq<T>, queue: seq<T>, q: T)
    requires queue == []
    ensures handed + ([q] + queue) == handed + ([] + queue) + [q]
  {
  }

  /** Accepted from here on, as far as the output has been asked. */
  predicate AcceptsFrom(output: Output, n: nat, end: nat) {
    forall i :: n <= i < end ==> output(i).reply.Accepts?
  }

  predicate AllDelivered(c: Conn) {
    c.queue == [] && Handed(c.trace) == c.accepted && (c.closed <==> EndsTerminal(c.accepted))
  }

  predicate TurnWell(c: Conn, reply: Reply, c1: Conn) {
    && (Shut(c1) || Working(c1))
    && c1.accepted == c.accepted && |c.trace| < |c1.trace| && c.trace <= c1.trace
    && (reply.Accepts? ==> !c1.backpressured && (c1.closed ==> AllDelivered(c1)))
  }

  lemma TurnKeeps(c: Conn, output: Output)
    requires Working(c) && CanSend(c)
    ensures TurnWell(c, output(|c.trace|).reply, Turn(c, output))
  {
    var q := c.queue[0];
    TurnOpens(c, q, Popped(c));
    TurnFollows(c, q, Popped(c), output);
  }

  lemma TurnOpens(c: Conn, q: QueuedFrame, c0: Conn)
    requires Open(c, []) && c.queue != [] && q == c.queue[0]
    requires c0 == Popped(c)
    ensures Open(c0, [q])
  {
    assert [] + c.queue == [q] + c.queue[1..];
  }

  lemma TurnFollows(c: Conn, q: QueuedFrame, c0: Conn, output: Output)
    requires Open(c, []) && c.queue != [] && q == c.queue[0]
    requires c0 == Popped(c)
    requires Open(c0, [q]) && !c0.backpressured && !c0.endAfterDrain
    ensures TurnWell(c, output(|c.trace|).reply, HandedOff(c0, q, output))
  {
    HandedOffKeeps(c0, q, output);
    if q.terminal {
      TerminalTurn(c, q, Handed(HandedOff(c0, q, output).trace));
    }
  }

  lemma TerminalTurn(c: Conn, q: QueuedFrame, handed: seq<QueuedFrame>)
    requires Open(c, []) && c.queue != [] && c.queue[0] == q && q.terminal
    requires handed == Handed(c.trace) + [q]
    ensures handed == c.accepted && EndsTerminal(c.accepted)
  {
    assert Handed(c.trace) + ([] + c.queue) == handed + c.queue[1..];
    TerminalEndsQueue(handed, c.queue[1..], c.accepted);
  }

  lemma {:induction false} FlushedKeeps(c: Conn, output: Output, c': Conn)
    requires Shut(c) || Working(c)
    requires c' == Flushed(c, output)
    ensures Law(c') && c'.accepted == c.accepted && c.trace <= c'.trace
    ensures !c.closed && !c.backpressured && AcceptsFrom(output, |c.trace|, |c'.trace|) ==> AllDelivered(c')
    decreases |c.queue|
  {
    if CanSend(c) {
      var c1 := Turn(c, output);
      TurnKeeps(c, output);
      FlushedKeeps(c1, output, c');
      FlushedAccepting(c, c1, c', output);
    } else if !c.closed && !c.backpressured {
      assert Handed(c.trace) + ([] + c.queue) == Handed(c.trace);
      ModeTerminal(c.trace);
    }
  }

  lemma FlushedAccepting(c: Conn, c1: Conn, c': Conn, output: Output)
    requires |c.trace| < |c1.trace| <= |c'.trace|
    requires output(|c.trace|).reply.Accepts? ==> !c1.backpressured && (c1.closed ==> AllDelivered(c1))
    requires c1.closed ==> c' == c1
    requires !c1.closed && !c1.backpressured && AcceptsFrom(output, |c1.trace|, |c'.trace|) ==> AllDelivered(c')
    ensures AcceptsFrom(output, |c.trace|, |c'.trace|) ==> AllDelivered(c')
  {
  }

  lemma AfterDrainKeeps(c: Conn, output: Output)
    requires Law(c) && (c.drainArmed || c.closed)
    ensures var c' := AfterDrain(c, output);
            && Law(c') && c'.accepted == c.accepted
            && (!c.closed && AcceptsFrom(output, |c.trace| + 1, |c'.trace|) ==> AllDelivered(c'))
  {
    if !c.closed {
      TraceSnoc(c.trace, Drained);
      var c1 := c.(drainArmed := false, backpressured := false, trace := c.trace + [Drained]);
      assert Handed(c1.trace) == Handed(c.trace);
      if c.endAfterDrain {
        ModeTerminal(c.trace);
        TerminalEndsQueue(Handed(c.trace), [] + c.queue, c.accepted);
        FinishedShut(c1);
      } else {
        FlushedKeeps(c1, output, Flushed(c1, output));
      }
    }
  }

  lemma FinishedKeeps(c: Conn)
    requires Law(c)
    ensures Law(Finished(c)) && Finished(c).closed && Finished(c).accepted == c.accepted
  {
    if !c.closed { FinishedShut(c); }
  }

  // ------------------------------------------------------------------ whole connections

  datatype Call = StartCall | WriteCall(frame: QueuedFrame) | DrainCall | CloseCall | FinishReplayCall

  /** One call. A drain only reaches a writer that registered for it, or one that has closed since. */
  function Applied(c: Conn, call: Call, output: Output): Conn {
    match call
    case StartCall => Started(c, output)
    case WriteCall(q) => Written(c, q, output)
    case DrainCall => if c.drainArmed || c.closed then AfterDrain(c, output) else c
    case CloseCall => Finished(c)
    case FinishReplayCall => ReplayFinished(c)
  }

  function Connection(calls: seq<Call>, output: Output): Conn {
    if calls == [] then OPENED else Applied(Connection(calls[..|calls| - 1], output), calls[|calls| - 1], output)
  }

  /** The connection law holds after any calls against any output. */
  lemma {:induction false} ConnectionKeepsLaw(calls: seq<Call>, output: Output)
    ensures Law(Connection(calls, output))
  {
    if calls != [] {
      var c := Connection(calls[..|calls| - 1], output);
      ConnectionKeepsLaw(calls[..|calls| - 1], output);
      match calls[|calls| - 1]
      case StartCall => StartedKeeps(c, output);
      case WriteCall(q) => WrittenKeeps(c, q, output);
      case DrainCall => if c.drainArmed || c.closed { AfterDrainKeeps(c, output); }
      case CloseCall => FinishedKeeps(c);
      case FinishReplayCall => FinishedKeeps(c);
    }
  }

  /** In-order delivery, spelled out: what a reader of the class would ask for. */
  ghost predicate DeliversInOrder(c: Conn) {
    && Handed(c.trace) <= c.accepted
    && (!c.closed ==> c.accepted == Handed(c.trace) + c.queue)
    && OrderlyTrace(c.trace)
    && (c.closed <==> c.trace != [] && c.trace[|c.trace| - 1].Ended?)
    && c.closeCalls == (if c.closed then 1 else 0)
    && |c.queue| <= MAX_QUEUED_EVENTS && c.queuedBytes == SumBytes(c.queue) <= MAX_QUEUED_BYTES
    && (!c.closed && !c.backpressured ==> c.queue == [])
    && (!c.closed && c.backpressured ==> c.drainArmed)
  }

  lemma LawMeansInOrder(c: Conn)
    requires Law(c)
    ensures DeliversInOrder(c)
  {
    UnbrokenIsOrderly(c.trace);
    assert !c.closed ==> Handed(c.trace) + ([] + c.queue) == Handed(c.trace) + c.queue;
  }

  /** Whatever calls are made and whatever the output answers. */
  lemma ConnectionDeliversInOrder(calls: seq<Call>, output: Output)
    ensures DeliversInOrder(Connection(calls, output))
  {
    ConnectionKeepsLaw(calls, output);
    LawMeansInOrder(Connection(calls, output));
  }

  /** A writer that has seen a terminal event, or has closed, takes on nothing more. */
  lemma {:induction false} NothingAcceptedAfterTerminal(calls: seq<Call>, more: seq<Call>, output: Output)
    requires Spent(Connection(calls, output))
    ensures Connection(calls + more, output).accepted == Connection(calls, output).accepted
    ensures Spent(Connection(calls + more, output))
  {
    if more == [] {
      assert calls + more == calls;
    } else {
      var init := more[..|more| - 1];
      NothingAcceptedAfterTerminal(calls, init, output);
      SplitLast(more);
      Regrouped(calls, init, more[|more| - 1]);
      ConnectionSnoc(calls + init, more[|more| - 1], output);
      ConnectionKeepsLaw(calls + init, output);
      StaysTerminal(Connection(calls + init, output), more[|more| - 1], output);
    }
  }

  lemma Regrouped<T>(a: seq<T>, b: seq<T>, x: T)
    ensures a + (b + [x]) == a + b + [x]
  {
  }

  lemma ConnectionSnoc(calls: seq<Call>, call: Call, output: Output)
    ensures Connection(calls + [call], output) == Applied(Connection(calls, output), call, output)
  {
    Snoc(calls, call);
  }

  predicate Spent(c: Conn) {
    c.terminalReceived || c.closed
  }

  lemma StaysTerminal(c: Conn, call: Call, output: Output)
    requires Law(c) && Spent(c)
    ensures Applied(c, call, output).accepted == c.accepted && Spent(Applied(c, call, output))
  {
    match call
    case StartCall => StartedKeeps(c, output);
    case DrainCall => if c.drainArmed || c.closed { DrainKeepsTerminal(c, output); }
    case WriteCall(q) =>
    case CloseCall =>
    case FinishReplayCall =>
  }

  lemma DrainKeepsTerminal(c: Conn, output: Output)
    requires Law(c) && (c.drainArmed || c.closed) && Spent(c)
    ensures AfterDrain(c, output).accepted == c.accepted && Spent(AfterDrain(c, output))
  {
    AfterDrainKeeps(c, output);
  }

  /** The frames of the write calls, in order. */
  function Writes(calls: seq<Call>): seq<QueuedFrame> {
    if calls == [] then [] else
      var last := calls[|calls| - 1];
      Writes(calls[..|calls| - 1]) + (if last.WriteCall? then [last.frame] else [])
  }

  lemma AppliedAccepts(c: Conn, call: Call, output: Output)
    requires Law(c)
    ensures Spent(c) ==> Applied(c, call, output).accepted == c.accepted && Spent(Applied(c, call, output))
    ensures !call.WriteCall? ==> Applied(c, call, output).accepted == c.accepted
    ensures call.WriteCall? && !Spent(c) ==>
              || Applied(c, call, output).accepted == c.accepted + [call.frame]
              || (Applied(c, call, output).accepted == c.accepted && Spent(Applied(c, call, output)))
  {
    if Spent(c) {
      StaysTerminal(c, call, output);
    } else {
      match call
      case StartCall => StartedKeeps(c, output);
      case DrainCall => if c.drainArmed || c.closed { AfterDrainKeeps(c, output); }
      case WriteCall(q) => WrittenAccepts(c, q, output);
      case CloseCall =>
      case FinishReplayCall =>
    }
  }

  lemma WrittenAccepts(c: Conn, q: QueuedFrame, output: Output)
    requires Law(c) && !Spent(c)
    ensures var c' := Written(c, q, output);
            c'.accepted == c.accepted + [q] || (c'.accepted == c.accepted && c'.closed)
  {
    if c.backpressured { WrittenToQueue(c, q, output); } else { WrittenThrough(c, q, output); }
  }

  /** Nothing is skipped: what was accepted is a prefix of what was written, all of it while in service. */
  lemma {:induction false} AcceptedIsPrefixOfWrites(calls: seq<Call>, output: Output)
    ensures Connection(calls, output).accepted <= Writes(calls)
    ensures !Spent(Connection(calls, output)) ==> Connection(calls, output).accepted == Writes(calls)
  {
    if calls != [] {
      var init := calls[..|calls| - 1];
      AcceptedIsPrefixOfWrites(init, output);
      ConnectionKeepsLaw(init, output);
      AppliedAccepts(Connection(init, output), calls[|calls| - 1], output);
    }
  }

  // ------------------------------------------------------------------ what the peer reads

  function QueuedAll(events: seq<Event>): (frames: seq<QueuedFrame>)
    ensures |frames| == |events|
  {
    if events == [] then [] else QueuedAll(events[..|events| - 1]) + [Queued(events[|events| - 1])]
  }

  lemma {:induction false} QueuedAllAt(events: seq<Event>, k: nat)
    requires k <= |events|
    ensures QueuedAll(events)[..k] == QueuedAll(events[..k])
  {
    if k == |events| {
      assert events[..k] == events;
    } else {
      QueuedAllAt(events[..|events| - 1], k);
      assert events[..|events| - 1][..k] == events[..k];
    }
  }

  lemma SplitLast<T>(s: seq<T>)
    requires s != []
    ensures s == s[..|s| - 1] + [s[|s| - 1]]
  {
  }

  lemma LastHanded(trace: seq<Action>, events: seq<Event>)
    requires trace != [] && trace[|trace| - 1].SentFrame? && Handed(trace) == QueuedAll(events)
    ensures events != [] && events == events[..|events| - 1] + [events[|events| - 1]]
    ensures Handed(trace[..|trace| - 1]) == QueuedAll(events[..|events| - 1])
    ensures trace[|trace| - 1].frame == Queued(events[|events| - 1])
  {
    var init, act := trace[..|trace| - 1], trace[|trace| - 1];
    assert Handed(trace) == Handed(init) + [act.frame];
    assert |QueuedAll(events)| == |events|;
    assert |events| == |Handed(init)| + 1;
    var before, e := events[..|events| - 1], events[|events| - 1];
    SplitLast(events);
    assert QueuedAll(events) == QueuedAll(before) + [Queued(e)];
    assert (Handed(init) + [act.frame])[..|Handed(init)|] == Handed(init);
    assert (QueuedAll(before) + [Queued(e)])[..|QueuedAll(before)|] == QueuedAll(before);
  }

  /** Comments and frames, in any order, deliver exactly the framed events. */
  lemma {:induction false} WireDelivers(trace: seq<Action>, events: seq<Event>)
    requires Handed(trace) == QueuedAll(events) && forall e :: e in events ==> Framable(e)
    ensures Delivers(FRESH, Wire(trace), events)
  {
    if trace == [] {
      assert FRESH.out + ReceivedAll(events) == FRESH.out;
    } else {
      var init, act := trace[..|trace| - 1], trace[|trace| - 1];
      if act.SentFrame? {
        var before, e := events[..|events| - 1], events[|events| - 1];
        LastHanded(trace, events);
        WireDelivers(init, before);
        FeedOneMore(FRESH, Wire(init), before, e);
      } else {
        WireDelivers(init, events);
        if act.SentComment? {
          FeedConcat(FRESH, Wire(init), COMMENT);
          FeedComment(Feed(FRESH, Wire(init)));
        } else {
          assert Wire(init) + "" == Wire(init);
        }
      }
    }
  }

  /**
   End to end over one connection: whatever calls were made, whatever the output answered, and
   wherever the byte stream was cut, the peer has dispatched a prefix of the accepted events, in order.
   */
  lemma PeerSeesPrefix(calls: seq<Call>, output: Output, events: seq<Event>, cut: nat)
    requires Connection(calls, output).accepted == QueuedAll(events)
    requires forall e :: e in events ==> Framable(e)
    requires cut <= |Wire(Connection(calls, output).trace)|
    ensures Feed(FRESH, Wire(Connection(calls, output).trace)[..cut]).out <= ReceivedAll(events)
  {
    ConnectionDeliversInOrder(calls, output);
    var trace := Connection(calls, output).trace;
    var k := |Handed(trace)|;
    QueuedAllAt(events, k);
    WireDelivers(trace, events[..k]);
    var text := Wire(trace);
    assert text == text[..cut] + text[cut..];
    FeedConcat(FRESH, text[..cut], text[cut..]);
    FeedOnlyAdds(Feed(FRESH, text[..cut]), text[cut..]);
    assert ReceivedAll(events[..k]) == ReceivedAll(events)[..k];
    assert FRESH.out + ReceivedAll(events[..k]) == ReceivedAll(events)[..k];
  }

  // ------------------------------------------------------------------ the class

  class BoundedSseWriter {
    const output: Output
    var queue: seq<QueuedFrame>
    var queuedBytes: int
    var backpressured: bool
    var drainArmed: bool
    var terminalReceived: bool
    var endAfterDrain: bool
    var closed: bool
    var closeCalls: nat
    var trace: seq<Action>
    ghost var accepted: seq<QueuedFrame>

    ghost function State(): Conn
      reads this
    {
      Conn(queue, queuedBytes, backpressured, drainArmed, terminalReceived, endAfterDrain, closed, closeCalls, trace, accepted)
    }

    constructor (output: Output)
      ensures State() == OPENED && this.output == output
    {
      this.output := output;
      queue, queuedBytes, trace, accepted := [], 0, [], [];
      backpressured, drainArmed, terminalReceived, endAfterDrain, closed := false, false, false, false, false;
      closeCalls := 0;
    }

    method Start()
      modifies this
      ensures State() == Started(old(State()), output)
    {
      if closed || backpressured { return; }
      var answer := output(|trace|);
      trace := trace + [SentComment(answer.reply)];
      match answer.reply {
        case Accepts =>
        case PushesBack =>
          backpressured := true;
          ArmDrain(answer.armThrows);
        case Throws =>
          Finish();
      }
    }

    method Write(event: Event)
      modifies this
      ensures State() == Written(old(State()), Queued(event), output)
      ensures old(!closed && !terminalReceived && backpressured && |queue| < 256 && queuedBytes + Queued(event).bytes <= 4194304) ==>
                !closed && queue == old(queue) + [Queued(event)] && queuedBytes == old(queuedBytes) + Queued(event).bytes && accepted == old(accepted) + [Queued(event)]
      ensures old(!closed && !terminalReceived && backpressured && !(|queue| < 256 && queuedBytes + Queued(event).bytes <= 4194304)) ==>
                closed && queue == [] && accepted == old(accepted)
      ensures old(!closed && !terminalReceived && !backpressured) ==>
                accepted == old(accepted) + [Queued(event)] && old(trace) + [SentFrame(Queued(event), output(old(|trace|)).reply)] <= trace
      ensures old(closed || terminalReceived) ==> State() == old(State())
    {
      WriteFrame(Queued(event));
    }

    method WriteFrame(queued: QueuedFrame)
      modifies this
      ensures State() == Written(old(State()), queued, output)
      ensures old(!closed && !terminalReceived && backpressured && |queue| < 256 && queuedBytes + queued.bytes <= 4194304) ==>
                !closed && queue == old(queue) + [queued] && queuedBytes == old(queuedBytes) + queued.bytes && accepted == old(accepted) + [queued]
      ensures old(!closed && !terminalReceived && backpressured && !(|queue| < 256 && queuedBytes + queued.bytes <= 4194304)) ==>
                closed && queue == [] && accepted == old(accepted)
      ensures old(!closed && !terminalReceived && !backpressured) ==>
                accepted == old(accepted) + [queued] && old(trace) + [SentFrame(queued, output(old(|trace|)).reply)] <= trace
      ensures old(closed || terminalReceived) ==> State() == old(State())
    {
      if closed || terminalReceived { return; }
      if queued.terminal { terminalReceived := true; }
      if backpressured {
        if |queue| >= MAX_QUEUED_EVENTS || queuedBytes + queued.bytes > MAX_QUEUED_BYTES {
          Overflow();
          return;
        }
        queue := queue + [queued];
        queuedBytes := queuedBytes + queued.bytes;
        accepted := accepted + [queued];
        return;
      }
      accepted := accepted + [queued];
      HandOff(queued);
    }

    method Close()
      modifies this
      ensures State() == Finished(old(State()))
    {
      Finish();
    }

    method FinishReplay()
      modifies this
      ensures State() == ReplayFinished(old(State()))
    {
      if !terminalReceived { Finish(); }
    }

    method HandOff(queued: QueuedFrame)
      modifies this
      ensures State() == HandedOff(old(State()), queued, output)
    {
      var answer := output(|trace|);
      trace := trace + [SentFrame(queued, answer.reply)];
      match answer.reply {
        case Throws =>
          Finish();
        case Accepts =>
          if queued.terminal { Finish(); }
        case PushesBack =>
          backpressured := true;
          endAfterDrain := queued.terminal;
          ArmDrain(answer.armThrows);
      }
    }

    method ArmDrain(throws: bool)
      modifies this
      ensures State() == Armed(old(State()), throws)
    {
      if closed || drainArmed { return; }
      drainArmed := true;
      if throws { Finish(); }
    }

    method HandleDrain()
      modifies this
      ensures State() == AfterDrain(old(State()), output)
    {
      drainArmed := false;
      if closed { return; }
      trace := trace + [Drained];
      backpressured := false;
      if endAfterDrain {
        Finish();
        return;
      }
      ghost var target := Flushed(State(), output);
      while !closed && !backpressured && |queue| > 0
        invariant Flushed(State(), output) == target
        decreases |queue|
      {
        SendFirst();
      }
    }

    method SendFirst()
      requires |queue| > 0
      modifies this
      ensures State() == Turn(old(State()), output)
    {
      var queued := queue[0];
      queue := queue[1..];
      queuedBytes := queuedBytes - queued.bytes;
      assert State() == Popped(old(State()));
      HandOff(queued);
    }

    method Overflow()
      modifies this
      ensures State() == Finished(old(State()).(queue := [], queuedBytes := 0))
    {
      queue := [];
      queuedBytes := 0;
      Finish();
    }

    method Finish()
      modifies this
      ensures State() == Finished(old(State()))
    {
      if closed { return; }
      closed := true;
      queue := [];
      queuedBytes := 0;
      drainArmed := false;
      trace := trace + [Ended];
      closeCalls := closeCalls + 1;
    }
  }
}
