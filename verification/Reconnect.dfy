/**
 A client that loses its connection and comes back with the id of the last event it dispatched.

 This ties the replay buffer, the writer and the frame format together: the route asks the session
 for the events after that id, and all connections together show each event once, in order.
 */
module Reconnect {
  import opened DecimalText
  import opened SseFrames
  import opened SseWriter
  import opened Replay

  /** One connection: the calls made on its writer, the output's answers, and how much text arrived. */
  datatype Link = Link(calls: seq<Call>, output: Output, arrived: nat)

  function Text(link: Link): string {
    Wire(Connection(link.calls, link.output).trace)
  }

  /** The link was fed by this subscriber: the listener writes every event it is called with. */
  predicate FedBy(link: Link, s: Subscriber) {
    Writes(link.calls) == QueuedAll(s.seen) && link.arrived <= |Text(link)|
  }

  /** What the peer has dispatched. */
  function Shown(link: Link): seq<Message>
    requires link.arrived <= |Text(link)|
  {
    Feed(FRESH, Text(link)[..link.arrived]).out
  }

  /** The start index the route derives from the last dispatched event's id; 0 when it is no number. */
  function SinceIndex(shown: seq<Message>): nat {
    if shown != [] && Digits(shown[|shown| - 1].id) then NumberOf(shown[|shown| - 1].id) + 1 else 0
  }

  /** One connection fed by one subscriber shows a prefix of what the subscriber was sent. */
  lemma LinkShowsPrefix(link: Link, s: Subscriber)
    requires FedBy(link, s) && forall e :: e in s.seen ==> Framable(e)
    ensures Shown(link) <= ReceivedAll(s.seen)
  {
    AcceptedIsPrefixOfWrites(link.calls, link.output);
    var k := |Connection(link.calls, link.output).accepted|;
    QueuedAllAt(s.seen, k);
    PeerSeesPrefix(link.calls, link.output, s.seen[..k], link.arrived);
    assert ReceivedAll(s.seen[..k]) == ReceivedAll(s.seen)[..k];
  }

  /** The id a client sends back is the number of the last event it dispatched. */
  lemma LastIdIsNumber(emitted: seq<Event>, shown: seq<Message>)
    requires NumberedFromZero(emitted) && shown <= ReceivedAll(emitted)
    ensures SinceIndex(shown) == |shown|
  {
    if shown != [] {
      var k := |shown| - 1;
      assert shown[k] == ReceivedAll(emitted)[k] == Received(emitted[k]);
      NumberOfDecimal(k);
    }
  }

  /** What was shown so far, and then the next connection's part, is still a prefix. */
  lemma PrefixesJoin(emitted1: seq<Event>, emitted2: seq<Event>, shown1: seq<Message>, shown2: seq<Message>)
    requires emitted1 <= emitted2 && shown1 <= ReceivedAll(emitted1) && |shown1| <= |emitted2|
    requires shown2 <= ReceivedAll(emitted2[|shown1|..])
    ensures shown1 + shown2 <= ReceivedAll(emitted2)
  {
    forall k | 0 <= k < |shown1| + |shown2|
      ensures (shown1 + shown2)[k] == ReceivedAll(emitted2)[k]
    {
      if k < |shown1| {
        assert shown1[k] == ReceivedAll(emitted1)[k];
      } else {
        assert shown2[k - |shown1|] == ReceivedAll(emitted2[|shown1|..])[k - |shown1|];
      }
    }
  }

  // ------------------------------------------------------------------ any number of connections

  /** One connection of the client: which subscriber of the session fed it, seen when `moment` steps had run. */
  datatype Visit = Visit(moment: nat, subscriber: nat, link: Link)

  function EmittedAt(steps: seq<Step>, visits: seq<Visit>): seq<Event> {
    if visits == [] then [] else RuntimeAt(steps, visits[|visits| - 1].moment).emitted
  }

  /** The session after the first `moment` steps of its run. */
  function RuntimeAt(steps: seq<Step>, moment: nat): Runtime {
    Replay.After(if moment <= |steps| then steps[..moment] else steps)
  }

  /** Everything the client has dispatched, over all its connections. */
  function ShownAll(visits: seq<Visit>): seq<Message>
    requires forall v :: v in visits ==> v.link.arrived <= |Text(v.link)|
  {
    if visits == [] then [] else ShownAll(visits[..|visits| - 1]) + Shown(visits[|visits| - 1].link)
  }

  /** It missed nothing by joining late: it was caught up, or nothing had been dropped from the buffer. */
  predicate JoinedInTime(s: Subscriber) {
    s.since == s.joined || s.stored == s.joined
  }

  /** The subscriber behind one connection: it joined after the previous one was over, from the index the client sent. */
  ghost predicate VisitOk(steps: seq<Step>, before: seq<Event>, since: nat, v: Visit) {
    var r := RuntimeAt(steps, v.moment);
    && v.subscriber < |r.subscribers|
    && FedBy(v.link, r.subscribers[v.subscriber])
    && r.subscribers[v.subscriber].since == since && |before| <= r.subscribers[v.subscriber].joined
    && JoinedInTime(r.subscribers[v.subscriber])
  }

  /** A client that connects, is cut off anywhere, and comes back with its last id, as often as it likes. */
  ghost predicate Client(steps: seq<Step>, visits: seq<Visit>)
    ensures Client(steps, visits) ==> forall v :: v in visits ==> v.link.arrived <= |Text(v.link)|
  {
    visits == []
    || (var init, v := visits[..|visits| - 1], visits[|visits| - 1];
        assert visits == init + [v];
        && Client(steps, init)
        && (init != [] ==> init[|init| - 1].moment <= v.moment)
        && VisitOk(steps, EmittedAt(steps, init), SinceIndex(ShownAll(init)), v))
  }

  ghost predicate AllFramable(steps: seq<Step>) {
    forall e :: e in Replay.After(steps).emitted ==> Framable(e)
  }

  lemma EmittedGrows(steps: seq<Step>, a: nat, b: nat)
    requires a <= b
    ensures RuntimeAt(steps, a).emitted <= RuntimeAt(steps, b).emitted <= Replay.After(steps).emitted
  {
    var m, n := if a <= |steps| then a else |steps|, if b <= |steps| then b else |steps|;
    assert steps[..|steps|] == steps;
    assert steps[..n] == steps[..m] + steps[m..n] && steps == steps[..n] + steps[n..];
    EmittedOnlyGrows(steps[..m], steps[m..n]);
    EmittedOnlyGrows(steps[..n], steps[n..]);
  }

  lemma FaithfulAt(steps: seq<Step>, moment: nat)
    ensures Faithful(RuntimeAt(steps, moment))
  {
    RunsAreFaithful(if moment <= |steps| then steps[..moment] else steps);
  }

  lemma EmittedSoFar(steps: seq<Step>, visits: seq<Visit>)
    requires visits != [] && (|visits| > 1 ==> visits[|visits| - 2].moment <= visits[|visits| - 1].moment)
    ensures EmittedAt(steps, visits[..|visits| - 1]) <= EmittedAt(steps, visits)
  {
    if |visits| > 1 {
      EmittedGrows(steps, visits[|visits| - 2].moment, visits[|visits| - 1].moment);
    }
  }

  /** One more connection, from the index of everything shown before it, continues the prefix. */
  lemma OneMoreVisit(steps: seq<Step>, before: seq<Event>, shown: seq<Message>, v: Visit)
    requires AllFramable(steps) && VisitOk(steps, before, SinceIndex(shown), v)
    requires NumberedFromZero(before) && shown <= ReceivedAll(before)
    requires before <= RuntimeAt(steps, v.moment).emitted
    ensures shown + Shown(v.link) <= ReceivedAll(RuntimeAt(steps, v.moment).emitted)
  {
    var r := RuntimeAt(steps, v.moment);
    var s := r.subscribers[v.subscriber];
    FaithfulAt(steps, v.moment);
    LastIdIsNumber(before, shown);
    SubscriberSeesEachOnce(r, v.subscriber);
    EmittedGrows(steps, v.moment, v.moment);
    SeenIsFramable(r.emitted, Replay.After(steps).emitted, s);
    LinkShowsPrefix(v.link, s);
    PrefixesJoin(before, r.emitted, shown, Shown(v.link));
  }

  lemma SeenIsFramable(emitted: seq<Event>, all: seq<Event>, s: Subscriber)
    requires emitted <= all && s.since <= |emitted| && s.seen == emitted[s.since..] && forall e :: e in all ==> Framable(e)
    ensures forall e :: e in s.seen ==> Framable(e)
  {
    forall e | e in s.seen ensures Framable(e) {
      var k :| 0 <= k < |s.seen| && s.seen[k] == e;
      assert all[s.since + k] == e;
    }
  }

  lemma EmittedNumbered(steps: seq<Step>, visits: seq<Visit>)
    ensures NumberedFromZero(EmittedAt(steps, visits))
  {
    if visits != [] { FaithfulAt(steps, visits[|visits| - 1].moment); }
  }

  /**
   However often the connection is cut and wherever, what the client has dispatched over all its
   connections is a prefix of the session's events: none twice, none missing, none out of order.
   */
  lemma {:induction false} ReconnectShowsEachOnce(steps: seq<Step>, visits: seq<Visit>)
    requires AllFramable(steps) && Client(steps, visits)
    ensures ShownAll(visits) <= ReceivedAll(EmittedAt(steps, visits))
  {
    if visits != [] {
      var init, v := visits[..|visits| - 1], visits[|visits| - 1];
      ReconnectShowsEachOnce(steps, init);
      EmittedSoFar(steps, visits);
      EmittedNumbered(steps, init);
      OneMoreVisit(steps, EmittedAt(steps, init), ShownAll(init), v);
    }
  }
}
