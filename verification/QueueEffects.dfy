/**
 What each command of the queue does to the entry it names, to the lease, to the disk and to the events
 offered for replay, said in the queue's own terms; and what every other entry keeps.
 */
module QueueEffects {
  import opened Basics
  import opened LineLog
  import opened ApplicationQueue

  ghost predicate Absent(entries: seq<Entry>, id: AttemptId) {
    forall k :: 0 <= k < |entries| ==> entries[k].attemptId != id
  }

  lemma KnownAt(entries: seq<Entry>, i: nat)
    requires UniqueIds(entries) && i < |entries|
    ensures IndexOf(entries, entries[i].attemptId) == i
  {
  }

  /** The change keeps counter and floor, and records this event about this attempt. */
  ghost predicate ChangesTo(s: Snapshot, change: Change, entries: seq<Entry>, lease: Option<Lease>, kind: EventKind, id: AttemptId) {
    change == Changes(Snapshot(entries, lease, s.nextEventSeq, s.replayFloor), kind, id)
  }

  // ------------------------------------------------------------------ one command

  /**
   What the commands that name an attempt do to the entry it has. Everything but that entry's state is
   kept, and the lease ends exactly if that entry was the active one.
   */
  lemma KnownEntryMoves(s: Snapshot, i: nat, now: Time)
    requires SnapshotOk(s) && i < |s.entries|
    ensures var e := s.entries[i];
            var id, rest := e.attemptId, if e.state == Active then None else s.lease;
            && (if e.state in {Queued, Active}
                then ChangesTo(s, Decide(s, Pause(id)), s.entries[i := Entry(id, Paused, e.queuedAt)], rest, PausedEvent, id)
                else Decide(s, Pause(id)) == InvalidTransition)
            && (if e.state == Paused
                then ChangesTo(s, Decide(s, Resume(id)), s.entries[i := Entry(id, Queued, e.queuedAt)], s.lease, Resumed, id)
                else Decide(s, Resume(id)) == InvalidTransition)
            && (if e.state in {Queued, Active, Paused}
                then ChangesTo(s, Decide(s, Skip(id)), s.entries[i := Entry(id, Cancelled, e.queuedAt)], rest, Skipped, id)
                else Decide(s, Skip(id)) == InvalidTransition)
            && (if e.state in {Queued, Active, Paused}
                then ChangesTo(s, Decide(s, Cancel(id)), s.entries[i := Entry(id, Cancelled, e.queuedAt)], rest, CancelledEvent, id)
                else Decide(s, Cancel(id)) == InvalidTransition)
            && (if e.state in {Cancelled, Done, Failed}
                then ChangesTo(s, Decide(s, Enqueue(id, now)), s.entries[i := Entry(id, Queued, now)], s.lease, Enqueued, id)
                else Decide(s, Enqueue(id, now)) == NoChange)
  {
    KnownAt(s.entries, i);
  }

  /** An attempt that has no entry is only known to an enqueue, which puts it last. */
  lemma UnknownAttempt(s: Snapshot, id: AttemptId, now: Time)
    requires Absent(s.entries, id)
    ensures ChangesTo(s, Decide(s, Enqueue(id, now)), s.entries + [Entry(id, Queued, now)], s.lease, Enqueued, id)
    ensures forall c :: c in [Pause(id), Resume(id), Skip(id), Cancel(id)] ==> Decide(s, c) == NotFound
  {
    assert IndexOf(s.entries, id) == |s.entries|;
  }

  /** The worker gets the first queued entry, unless there is a lease or nothing queued. */
  lemma AcquireMoves(s: Snapshot, leaseId: LeaseId, i: nat)
    requires i < |s.entries| && s.entries[i].state == Queued && forall k :: 0 <= k < i ==> s.entries[k].state != Queued
    ensures var e := s.entries[i];
            if s.lease.Some? then Decide(s, Acquire(leaseId)) == NoChange
            else ChangesTo(s, Decide(s, Acquire(leaseId)), s.entries[i := Entry(e.attemptId, Active, e.queuedAt)],
                           Some(Lease(leaseId, e.attemptId)), LeaseAcquired, e.attemptId)
  {
    assert FirstQueued(s.entries) == i;
  }

  lemma NothingToAcquire(s: Snapshot, leaseId: LeaseId)
    requires forall k :: 0 <= k < |s.entries| ==> s.entries[k].state != Queued
    ensures Decide(s, Acquire(leaseId)) == NoChange
  {
    assert FirstQueued(s.entries) == |s.entries|;
  }

  /** The holder's release ends the lease and settles the active entry; anybody else's does nothing. */
  lemma ReleaseMoves(s: Snapshot, leaseId: LeaseId, i: nat)
    requires SnapshotOk(s) && s.lease.Some? && i < |s.entries| && s.entries[i].state == Active
    ensures var e := s.entries[i];
            var id := e.attemptId;
            if s.lease.value.leaseId == leaseId then
              && ChangesTo(s, Decide(s, Release(leaseId, Requeue)), s.entries[i := Entry(id, Queued, e.queuedAt)], None, Released, id)
              && ChangesTo(s, Decide(s, Release(leaseId, Completed)), s.entries[i := Entry(id, Done, e.queuedAt)], None, Released, id)
              && ChangesTo(s, Decide(s, Release(leaseId, FailedRun)), s.entries[i := Entry(id, Failed, e.queuedAt)], None, Released, id)
            else forall finish :: Decide(s, Release(leaseId, finish)) == NoChange
  {
    KnownAt(s.entries, i);
  }

  lemma NothingToRelease(s: Snapshot, leaseId: LeaseId, finish: Finish)
    requires s.lease.None?
    ensures Decide(s, Release(leaseId, finish)) == NoChange
  {
  }

  // ------------------------------------------------------------------ a command in a running process

  /** The last 500 of the events offered so far and the new one. */
  ghost predicate Offers(recent: seq<Event>, was: seq<Event>, e: Event) {
    recent == if |was| < 500 then was + [e] else was[|was| - 499..] + [e]
  }

  /** The event ends up in the file, behind all that could be read there, if the file ended in a newline. */
  ghost predicate Logs(log: Log<Event>, was: Log<Event>, e: Event) {
    log.tail.Terminated? && (was.tail.Terminated? ==> Items(log) == Items(was) + [e])
  }

  /** The process goes on with this snapshot, which is also the one on disk, and the event is logged and offered. */
  ghost predicate Committed(w: World, w': World, entries: seq<Entry>, lease: Option<Lease>, e: Event)
    requires w.process.Some? || w.disk.snapshot.Some?
  {
    && w'.process.Some?
    && var s := Snapshot(entries, lease, e.number + 1, LoadedSnapshot(w.disk).replayFloor);
       && w'.process.value.snapshot == s && w'.disk.snapshot == Some(s)
       && Logs(w'.disk.log, w.disk.log, e)
  }

  /**
   A command that changes something: memory and disk end with the changed queue, the event takes the
   next number, and both the log and the replay take the event on.
   */
  lemma ChangeTakesEffect(w: World, c: Command, entries: seq<Entry>, lease: Option<Lease>, kind: EventKind, id: AttemptId)
    requires WorldOk(w) && w.process.Some? && (c.Acquire? ==> c.leaseId !in w.used)
    requires ChangesTo(w.process.value.snapshot, Decide(w.process.value.snapshot, c), entries, lease, kind, id)
    ensures var w', e := Apply(w, Run(c)), Event(w.process.value.snapshot.nextEventSeq, kind, id);
            && Committed(w, w', entries, lease, e)
            && Offers(w'.process.value.recent, w.process.value.recent, e)
            && w'.used == w.used + (if c.Acquire? then {c.leaseId} else {})
  {
    var m := w.process.value;
    var e := Event(m.snapshot.nextEventSeq, kind, id);
    ItemsOfAppended(w.disk.log, e);
    PushedOffers(m.recent, e);
  }

  lemma PushedOffers(recent: seq<Event>, e: Event)
    requires |recent| <= 500
    ensures Offers(Pushed(recent, e), recent, e)
  {
    if |recent| == 500 { assert (recent + [e])[1..] == recent[1..] + [e]; }
  }

  /**
   Where a crash can leave the disk: before the change, with the change but its number not yet taken,
   with the number taken but the event not or not wholly in the log, or with everything done.
   */
  lemma ChangeCutShort(w: World, c: Command, entries: seq<Entry>, lease: Option<Lease>, kind: EventKind, id: AttemptId, n: nat, torn: Option<bool>)
    requires w.process.Some? && (c.Acquire? ==> c.leaseId !in w.used)
    requires ChangesTo(w.process.value.snapshot, Decide(w.process.value.snapshot, c), entries, lease, kind, id)
    ensures var w', d, s := Apply(w, CrashIn(c, n, torn)), w.disk, w.process.value.snapshot;
            var next := s.nextEventSeq;
            && w'.process == None
            && w'.disk.snapshot == (if n == 0 then d.snapshot
                                    else Some(Snapshot(entries, lease, if n == 1 then next else next + 1, s.replayFloor)))
            && w'.disk.log == if n < 2 || (n == 2 && torn.None?) then d.log
                              else if n == 2 then TornAppend(d.log, Event(next, kind, id), torn.value)
                              else Appended(d.log, Event(next, kind, id))
  {
  }

  /** A refused or needless command changes neither memory nor disk. */
  lemma RefusalKeepsAll(w: World, c: Command)
    requires w.process.Some? && Decide(w.process.value.snapshot, c) in [NotFound, InvalidTransition, NoChange]
    ensures Apply(w, Run(c)).disk == w.disk && Apply(w, Run(c)).process == w.process
  {
  }

  /** A clear leaves no entry, no lease, an empty log and nothing to replay; only the counter goes on. */
  lemma ClearTakesEffect(w: World)
    requires w.process.Some?
    ensures var w', next := Apply(w, Run(Clear)), w.process.value.snapshot.nextEventSeq;
            && w'.process == Some(Memory(Snapshot([], None, next, next), []))
            && w'.disk.snapshot == Some(Snapshot([], None, next, next))
            && Items(w'.disk.log) == [] && Readable(w'.disk.log)
  {
  }

  // ------------------------------------------------------------------ startup

  /** Startup queues the leased entry again and drops the lease, with a Released event; without a lease it changes nothing. */
  lemma BootTakesEffect(w: World, i: nat)
    requires WorldOk(w) && w.process.None? && w.disk.snapshot.Some?
    requires w.disk.snapshot.value.lease.Some? ==> i < |w.disk.snapshot.value.entries| && w.disk.snapshot.value.entries[i].state == Active
    ensures var w', s := Apply(w, Boot), w.disk.snapshot.value;
            if s.lease.None? then w'.disk == w.disk && w'.process.Some? && w'.process.value.snapshot == s
            else var e := s.entries[i];
                 Committed(w, w', s.entries[i := Entry(e.attemptId, Queued, e.queuedAt)], None, Event(s.nextEventSeq, Released, e.attemptId))
  {
    var s := w.disk.snapshot.value;
    LoadedIsCounted(w.disk);
    if s.lease.Some? {
      KnownAt(s.entries, i);
      ItemsOfAppended(w.disk.log, Event(s.nextEventSeq, Released, s.entries[i].attemptId));
    }
  }

  lemma LoadedIsCounted(d: Disk)
    requires DiskOk(d) && d.snapshot.Some?
    ensures Counted(d.snapshot.value, LoadedEvents(d.log, d.snapshot.value.replayFloor)) == d.snapshot.value
  {
    LoadedOk(d.log, d.snapshot.value.replayFloor, d.snapshot.value.nextEventSeq);
  }

  /** The first startup of all finds an empty queue. */
  lemma FirstBoot(w: World)
    requires WorldOk(w) && w.process.None? && w.disk.snapshot.None?
    ensures Apply(w, Boot).process == Some(Memory(Snapshot([], None, 0, 0), [])) && Apply(w, Boot).disk == w.disk
  {
    assert Items(NO_LOG) == [];
  }

  // ------------------------------------------------------------------ what is replayed

  lemma {:induction false} AtLeastIsSuffix(events: seq<Event>, floor: nat) returns (k: nat)
    requires StrictlyIncreasing(events)
    ensures k <= |events| && AtLeast(events, floor) == events[k..] && CutAtFloor(events, floor, k)
  {
    if events == [] { return 0; }
    var init, last := events[..|events| - 1], events[|events| - 1];
    k := AtLeastIsSuffix(init, floor);
    CutOneMore(init, last, floor, k);
    assert events == init + [last];
    if last.number < floor { k := |events|; }
  }

  ghost predicate CutAtFloor(events: seq<Event>, floor: nat, k: nat) {
    forall i :: 0 <= i < |events| ==> (events[i].number >= floor <==> k <= i)
  }

  lemma CutOneMore(init: seq<Event>, last: Event, floor: nat, k: nat)
    requires CutAtFloor(init, floor, k) && k <= |init|
    requires forall i :: 0 <= i < |init| ==> init[i].number < last.number
    ensures (init + [last])[k..] == init[k..] + [last]
    ensures last.number >= floor ==> CutAtFloor(init + [last], floor, k)
    ensures last.number < floor ==> k == |init| && CutAtFloor(init + [last], floor, |init| + 1)
  {
    if k < |init| { assert init[k].number >= floor; }
  }

  /** From a readable log a startup offers exactly the last 500 events that are not below the floor; else nothing. */
  lemma ReplayExactly(log: Log<Event>, floor: nat, next: nat) returns (k: nat)
    requires LogOk(log, next)
    ensures !Readable(log) ==> LoadedEvents(log, floor) == []
    ensures k <= |Items(log)| && (Readable(log) ==> LoadedEvents(log, floor) == Items(log)[k..])
    ensures forall i :: 0 <= i < |Items(log)| ==> (k <= i <==> Items(log)[i].number >= floor && |Items(log)| - i <= 500)
  {
    var events := Items(log);
    k := AtLeastIsSuffix(events, floor);
    if |events| - k > 500 {
      assert events[k..][|events| - k - 500..] == events[|events| - 500..];
      k := |events| - 500;
    }
  }

  /** So the process a startup brings up, and any process since, replays exactly those. */
  lemma RunsReplayExactly(steps: seq<Step>) returns (k: nat)
    requires After(steps).process.Some? && Readable(After(steps).disk.log)
    ensures var w := After(steps);
            var events, m := Items(w.disk.log), w.process.value;
            && k <= |events| && m.recent == events[k..]
            && forall i :: 0 <= i < |events| ==> (k <= i <==> events[i].number >= m.snapshot.replayFloor && |events| - i <= 500)
  {
    RunsKeepQueue(steps);
    var w := After(steps);
    assert LogOk(w.disk.log, w.process.value.snapshot.nextEventSeq) by {
      if w.disk.snapshot.None? { assert Items(w.disk.log) == []; }
    }
    k := ReplayExactly(w.disk.log, w.process.value.snapshot.replayFloor, w.process.value.snapshot.nextEventSeq);
  }
}
