/**
 One session's event stream: numbering, the bounded replay buffer with its latch, and subscribers.

 `emitted` is everything the session ever delivered. A step is one stretch of the event loop: an
 event that fits, the first and second half of the oversized-event path (with the awaited
 cancellation between them), and subscriptions at any moment, also inside that await.
 */
module Replay {
  import opened Basics
  import opened DecimalText
  import opened SseFrames
  import opened SseWriter

  const MAX_STORED_EVENTS: nat := 5000
  const MAX_STORED_BYTES: nat := 16 * 1024 * 1024
  const MAX_ENVELOPE_BYTES: nat := 1024 * 1024

  /** UTF-8 size of the serialized envelope. */
  function Bytes(e: Event): nat {
    Utf8Length(e.payload)
  }

  function TotalBytes(events: seq<Event>): nat {
    if events == [] then 0 else TotalBytes(events[..|events| - 1]) + Bytes(events[|events| - 1])
  }

  /** The failure that takes the place, and the number, of an event too large to deliver. */
  function OversizeFailure(sequence: nat): Event {
    Event(sequence, "session.failed",
          "{\"type\":\"session.failed\",\"sequence\":" + Decimal(sequence) + "}")
  }

  /** A subscriber: where it asked to start, what the stream held when it joined, what it was sent. */
  datatype Subscriber = Subscriber(since: nat, stored: nat, joined: nat, seen: seq<Event>)

  datatype Runtime = Runtime(
    events: seq<Event>,
    replayBytes: nat,
    replayFull: bool,
    nextSequence: nat,
    failing: bool,               // inside the oversized-event path, awaiting the cancellation
    over: bool,                  // the consume loop has been left
    subscribers: seq<Subscriber>,
    emitted: seq<Event>)

  const NEW: Runtime := Runtime([], 0, false, 0, false, false, [], [])

  function Stored(r: Runtime, e: Event): Runtime {
    if !r.replayFull && |r.events| < MAX_STORED_EVENTS && r.replayBytes + Bytes(e) <= MAX_STORED_BYTES
    then r.(events := r.events + [e], replayBytes := r.replayBytes + Bytes(e))
    else r.(replayFull := true)
  }

  function Notified(subscribers: seq<Subscriber>, e: Event): seq<Subscriber> {
    seq(|subscribers|, i requires 0 <= i < |subscribers| =>
      subscribers[i].(seen := subscribers[i].seen + [e]))
  }

  function Delivered(r: Runtime, e: Event): Runtime {
    Stored(r, e).(subscribers := Notified(r.subscribers, e), emitted := r.emitted + [e])
  }

  /** The body of the consume loop for an event that fits: number it, store it, notify everyone. */
  function AfterEvent(r: Runtime, kind: string, payload: string): Runtime {
    Delivered(r.(nextSequence := r.nextSequence + 1), Event(r.nextSequence, kind, payload))
  }

  /** An event over the ceiling: the number is taken, then the provider's cancellation is awaited. */
  function AfterOversized(r: Runtime): Runtime {
    r.(nextSequence := r.nextSequence + 1, failing := true)
  }

  function AfterFailure(r: Runtime): Runtime
    requires r.failing && r.nextSequence > 0
  {
    Delivered(r.(failing := false, over := true), OversizeFailure(r.nextSequence - 1))
  }

  function AfterSubscribe(r: Runtime, since: nat): Runtime {
    var replayed := if since < |r.events| then r.events[since..] else [];
    r.(subscribers := r.subscribers + [Subscriber(since, |r.events|, |r.emitted|, replayed)])
  }

  // ------------------------------------------------------------------ runs

  datatype Step =
    | Fits(kind: string, payload: string)
    | Oversized
    | Fails
    | Subscribe(since: nat)

  /** Inside the await of the oversized path the loop takes no further event, and after it it ends. */
  predicate Possible(r: Runtime, step: Step) {
    match step
    case Fits(_, payload) => !r.over && !r.failing && Utf8Length(payload) <= MAX_ENVELOPE_BYTES
    case Oversized => !r.over && !r.failing
    case Fails => r.failing && r.nextSequence > 0
    case Subscribe(_) => true
  }

  /** One step; a step that cannot happen in this state does not. */
  function Apply(r: Runtime, step: Step): Runtime {
    if !Possible(r, step) then r else
      match step
      case Fits(kind, payload) => AfterEvent(r, kind, payload)
      case Oversized => AfterOversized(r)
      case Fails => AfterFailure(r)
      case Subscribe(since) => AfterSubscribe(r, since)
  }

  function After(steps: seq<Step>): Runtime {
    if steps == [] then NEW else Apply(After(steps[..|steps| - 1]), steps[|steps| - 1])
  }

  ghost predicate SubscriberExact(emitted: seq<Event>, s: Subscriber) {
    && s.stored <= s.joined <= |emitted|
    && s.seen == (if s.since < s.stored then emitted[s.since..s.stored] else []) + emitted[s.joined..]
  }

  ghost predicate SubscribersExact(emitted: seq<Event>, subscribers: seq<Subscriber>) {
    forall i :: 0 <= i < |subscribers| ==> SubscriberExact(emitted, subscribers[i])
  }

  ghost predicate NumberedFromZero(events: seq<Event>) {
    forall i :: 0 <= i < |events| ==> events[i].sequence == i
  }

  ghost predicate BufferExact(r: Runtime) {
    && r.events <= r.emitted
    && (!r.replayFull ==> r.events == r.emitted)
    && r.replayBytes == TotalBytes(r.events) <= MAX_STORED_BYTES
    && |r.events| <= MAX_STORED_EVENTS
  }

  /** What holds at every step. */
  ghost predicate Faithful(r: Runtime) {
    && NumberedFromZero(r.emitted)
    && r.nextSequence == |r.emitted| + (if r.failing then 1 else 0)
    && BufferExact(r)
    && SubscribersExact(r.emitted, r.subscribers)
  }

  lemma StoredExact(r: Runtime, e: Event)
    requires BufferExact(r)
    ensures BufferExact(Stored(r, e).(emitted := r.emitted + [e]))
  {
    assert (r.events + [e])[..|r.events|] == r.events;
  }

  lemma NotifiedExact(emitted: seq<Event>, subscribers: seq<Subscriber>, e: Event)
    requires SubscribersExact(emitted, subscribers)
    ensures SubscribersExact(emitted + [e], Notified(subscribers, e))
  {
    var emitted' := emitted + [e];
    forall i | 0 <= i < |subscribers|
      ensures SubscriberExact(emitted', Notified(subscribers, e)[i])
    {
      var s := subscribers[i];
      assert SubscriberExact(emitted, s);
      assert emitted'[s.joined..] == emitted[s.joined..] + [e];
      if s.since < s.stored {
        assert emitted'[s.since..s.stored] == emitted[s.since..s.stored];
      }
    }
  }

  lemma DeliveredFaithful(r: Runtime, e: Event)
    requires NumberedFromZero(r.emitted) && BufferExact(r) && SubscribersExact(r.emitted, r.subscribers)
    requires !r.failing && r.nextSequence == |r.emitted| + 1 && e.sequence == |r.emitted|
    ensures Faithful(Delivered(r, e))
  {
    StoredExact(r, e);
    NotifiedExact(r.emitted, r.subscribers, e);
  }

  lemma SubscribeFaithful(r: Runtime, since: nat)
    requires Faithful(r)
    ensures Faithful(AfterSubscribe(r, since))
  {
    var s := AfterSubscribe(r, since).subscribers[|r.subscribers|];
    assert r.emitted[..|r.events|] == r.events;
    if since < |r.events| { assert r.emitted[since..|r.events|] == r.events[since..]; }
    assert r.emitted[s.joined..] == [];
    assert SubscriberExact(r.emitted, s);
  }

  lemma StepFaithful(r: Runtime, step: Step)
    requires Faithful(r)
    ensures Faithful(Apply(r, step))
  {
    if Possible(r, step) {
      match step
      case Fits(kind, payload) =>
        DeliveredFaithful(r.(nextSequence := r.nextSequence + 1), Event(r.nextSequence, kind, payload));
      case Oversized =>
      case Fails =>
        DeliveredFaithful(r.(failing := false, over := true), OversizeFailure(r.nextSequence - 1));
      case Subscribe(since) => SubscribeFaithful(r, since);
    }
  }

  /** The replay laws hold after any steps. */
  lemma {:induction false} RunsAreFaithful(steps: seq<Step>)
    ensures Faithful(After(steps))
  {
    if steps != [] {
      RunsAreFaithful(steps[..|steps| - 1]);
      StepFaithful(After(steps[..|steps| - 1]), steps[|steps| - 1]);
    }
  }

  /** Delivered events are never taken back or changed, and an ended stream delivers nothing more. */
  lemma {:induction false} EmittedOnlyGrows(steps: seq<Step>, more: seq<Step>)
    ensures After(steps).emitted <= After(steps + more).emitted
    ensures After(steps).over && !After(steps).failing ==> After(steps + more).emitted == After(steps).emitted
    ensures After(steps).over && !After(steps).failing ==> After(steps + more).over && !After(steps + more).failing
  {
    if more == [] {
      assert steps + more == steps;
    } else {
      EmittedOnlyGrows(steps, more[..|more| - 1]);
      assert (steps + more)[..|steps + more| - 1] == steps + more[..|more| - 1];
    }
  }

  /**
   A subscriber from an index not beyond what had been emitted sees each event from that index on,
   once and in order, exactly when nothing it asked for had been dropped when it joined.
   */
  lemma SubscriberSeesEachOnce(r: Runtime, i: nat)
    requires Faithful(r) && i < |r.subscribers| && r.subscribers[i].since <= r.subscribers[i].joined
    ensures var s := r.subscribers[i];
            s.seen == r.emitted[s.since..] <==> s.since == s.joined || s.stored == s.joined
  {
    var s := r.subscribers[i];
    assert SubscriberExact(r.emitted, s);
    if s.stored == s.joined {
      if s.since < s.stored {
        assert r.emitted[s.since..] == r.emitted[s.since..s.stored] + r.emitted[s.stored..];
      }
    }
  }

  /** Until the latch, every subscriber joins a complete buffer. */
  lemma NothingDroppedBeforeLatch(r: Runtime, since: nat)
    requires Faithful(r) && !r.replayFull && since <= |r.emitted|
    ensures var s := AfterSubscribe(r, since).subscribers[|r.subscribers|];
            s.stored == s.joined && s.seen == r.emitted[since..]
  {
  }

  // ------------------------------------------------------------------ the buffer holds all it can

  /** The buffer is the longest prefix of the stream within 5000 events and 16 MiB, and the latch says whether that is all. */
  ghost predicate Longest(events: seq<Event>, emitted: seq<Event>, replayFull: bool) {
    && events <= emitted && |events| <= 5000 && TotalBytes(events) <= 16777216
    && (|events| < |emitted| ==> |events| == 5000 || TotalBytes(emitted[..|events| + 1]) > 16777216)
    && (replayFull <==> |events| < |emitted|)
  }

  lemma TotalOneMore(events: seq<Event>, e: Event)
    ensures TotalBytes(events + [e]) == TotalBytes(events) + Bytes(e)
  {
    assert (events + [e])[..|events|] == events;
  }

  lemma DeliveredLongest(r: Runtime, e: Event)
    requires Longest(r.events, r.emitted, r.replayFull) && r.replayBytes == TotalBytes(r.events)
    ensures var r' := Delivered(r, e); Longest(r'.events, r'.emitted, r'.replayFull)
  {
    var k, emitted' := |r.events|, r.emitted + [e];
    if r.replayFull {
      assert emitted'[..k + 1] == r.emitted[..k + 1];
    } else {
      assert r.events == r.emitted;
      TotalOneMore(r.events, e);
      assert emitted'[..k + 1] == emitted';
    }
  }

  lemma StepLongest(r: Runtime, step: Step)
    requires Faithful(r) && Longest(r.events, r.emitted, r.replayFull)
    ensures var r' := Apply(r, step); Longest(r'.events, r'.emitted, r'.replayFull)
  {
    if Possible(r, step) {
      match step
      case Fits(kind, payload) => DeliveredLongest(r.(nextSequence := r.nextSequence + 1), Event(r.nextSequence, kind, payload));
      case Oversized =>
      case Fails => DeliveredLongest(r.(failing := false, over := true), OversizeFailure(r.nextSequence - 1));
      case Subscribe(since) =>
    }
  }

  /** After any steps the replay buffer holds exactly the longest prefix it may. */
  lemma {:induction false} RunsKeepLongest(steps: seq<Step>)
    ensures Longest(After(steps).events, After(steps).emitted, After(steps).replayFull)
  {
    if steps != [] {
      RunsKeepLongest(steps[..|steps| - 1]);
      RunsAreFaithful(steps[..|steps| - 1]);
      StepLongest(After(steps[..|steps| - 1]), steps[|steps| - 1]);
    }
  }

  // ------------------------------------------------------------------ every step takes effect

  /** Every subscriber is sent the event, behind what it was sent before. */
  ghost predicate AllSent(before: seq<Subscriber>, after: seq<Subscriber>, e: Event) {
    && |after| == |before|
    && forall i :: 0 <= i < |before| ==> after[i] == before[i].(seen := before[i].seen + [e])
  }

  /** What each step does to the stream and its subscribers. */
  lemma StepsTakeEffect(r: Runtime, step: Step)
    requires Faithful(r)
    ensures var r' := Apply(r, step);
            match step
            case Fits(kind, payload) =>
              !r.over && !r.failing && Utf8Length(payload) <= 1048576 ==>
                var e := Event(|r.emitted|, kind, payload);
                r'.emitted == r.emitted + [e] && AllSent(r.subscribers, r'.subscribers, e) && !r'.over
            case Oversized => !r.over && !r.failing ==> r'.failing && r'.emitted == r.emitted && r'.subscribers == r.subscribers
            case Fails =>
              r.failing ==>
                var e := r'.emitted[|r'.emitted| - 1];
                && r'.emitted == r.emitted + [e] && e.sequence == |r.emitted| && e.kind == "session.failed"
                && AllSent(r.subscribers, r'.subscribers, e) && r'.over && !r'.failing
            case Subscribe(since) =>
              && r'.subscribers == r.subscribers + [Subscriber(since, |r.events|, |r.emitted|, if since < |r.events| then r.events[since..] else [])]
              && r'.emitted == r.emitted && r'.events == r.events
  {
  }

  // ------------------------------------------------------------------ the class

  class SessionRuntime {
    var events: seq<Event>
    var replayBytes: nat
    var replayFull: bool
    var nextSequence: nat
    var failing: bool
    var over: bool
    var subscribers: seq<Subscriber>
    var emitted: seq<Event>  // history, read by no decision

    ghost function State(): Runtime
      reads this
    {
      Runtime(events, replayBytes, replayFull, nextSequence, failing, over, subscribers, emitted)
    }

    constructor ()
      ensures State() == NEW
    {
      events, replayBytes, replayFull, nextSequence := [], 0, false, 0;
      failing, over, subscribers, emitted := false, false, [], [];
    }

    method StoreEnvelope(envelope: Event)
      modifies this
      ensures old(!replayFull && |events| < 5000 && replayBytes + Bytes(envelope) <= 16777216) ==>
                events == old(events) + [envelope] && replayBytes == old(replayBytes) + Bytes(envelope) && !replayFull
      ensures !old(!replayFull && |events| < 5000 && replayBytes + Bytes(envelope) <= 16777216) ==>
                events == old(events) && replayBytes == old(replayBytes) && replayFull
      ensures State() == Stored(old(State()), envelope)
    {
      var bytes := Bytes(envelope);
      if !replayFull && |events| < MAX_STORED_EVENTS && replayBytes + bytes <= MAX_STORED_BYTES {
        events := events + [envelope];
        replayBytes := replayBytes + bytes;
        return;
      }
      if !replayFull { replayFull := true; }
    }

    /** Calls every listener with the envelope. */
    method NotifyListeners(envelope: Event)
      modifies this`subscribers, this`emitted
      ensures subscribers == Notified(old(subscribers), envelope) && emitted == old(emitted) + [envelope]
    {
      var updated: seq<Subscriber> := [];
      for i := 0 to |subscribers|
        invariant |updated| == i
        invariant forall k :: 0 <= k < i ==> updated[k] == subscribers[k].(seen := subscribers[k].seen + [envelope])
      {
        updated := updated + [subscribers[i].(seen := subscribers[i].seen + [envelope])];
      }
      subscribers := updated;
      emitted := emitted + [envelope];
    }

    method HandleEvent(kind: string, payload: string)
      requires Possible(State(), Fits(kind, payload))
      modifies this
      ensures State() == AfterEvent(old(State()), kind, payload)
    {
      var envelope := Event(nextSequence, kind, payload);
      nextSequence := nextSequence + 1;
      StoreEnvelope(envelope);
      NotifyListeners(envelope);
    }

    method BeginOversized()
      requires Possible(State(), Oversized)
      modifies this
      ensures State() == AfterOversized(old(State()))
    {
      nextSequence := nextSequence + 1;
      failing := true;
    }

    /** After the awaited cancellation: the failure is stored and delivered under the taken number. */
    method FinishOversized()
      requires Possible(State(), Fails)
      modifies this
      ensures State() == AfterFailure(old(State()))
    {
      var failure := OversizeFailure(nextSequence - 1);
      failing, over := false, true;
      StoreEnvelope(failure);
      NotifyListeners(failure);
    }

    /** Replays what is stored from `since` on, then registers for what follows. */
    method AddSubscriber(since: nat)
      modifies this
      ensures State() == AfterSubscribe(old(State()), since)
    {
      var seen: seq<Event> := [];
      var i := since;
      while i < |events|
        invariant since <= i && (since < |events| ==> i <= |events|) && (since >= |events| ==> i == since)
        invariant seen == if since < |events| then events[since..i] else []
      {
        seen := seen + [events[i]];
        i := i + 1;
      }
      assert since < |events| ==> events[since..i] == events[since..];
      subscribers := subscribers + [Subscriber(since, |events|, |emitted|, seen)];
    }
  }
}
