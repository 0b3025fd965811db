/**
 The durable single-worker queue of application attempts.

 The disk holds one atomically replaced snapshot and one append-only event log. Every operation is a
 short list of writes; a crash keeps any prefix of that list, and an interrupted append may leave a
 torn last line. Startup is such a list too, so a crash during startup is covered.
 */
module ApplicationQueue {
  import opened Basics
  import opened LineLog

  type AttemptId = nat  // an opaque token
  type LeaseId = nat
  type Time = nat

  datatype EntryState = Queued | Active | Paused | Cancelled | Done | Failed

  predicate Terminal(s: EntryState) {
    s.Cancelled? || s.Done? || s.Failed?
  }

  datatype Entry = Entry(attemptId: AttemptId, state: EntryState, queuedAt: Time)
  datatype Lease = Lease(leaseId: LeaseId, attemptId: AttemptId)

  datatype EventKind = Enqueued | LeaseAcquired | PausedEvent | Resumed | Skipped | CancelledEvent | Released
  datatype Event = Event(number: nat, kind: EventKind, attemptId: AttemptId)

  datatype Snapshot = Snapshot(entries: seq<Entry>, lease: Option<Lease>, nextEventSeq: nat, replayFloor: nat)

  const MAX_REPLAY_EVENTS: nat := 500

  function EmptySnapshot(nextEventSeq: nat): Snapshot {
    Snapshot([], None, nextEventSeq, nextEventSeq)
  }

  // ------------------------------------------------------------------ the event log file

  const NO_LOG: Log<Event> := Log([], Terminated)

  function AtLeast(events: seq<Event>, floor: nat): seq<Event> {
    if events == [] then [] else
      var last := events[|events| - 1];
      AtLeast(events[..|events| - 1], floor) + (if last.number >= floor then [last] else [])
  }

  function TakeLast(events: seq<Event>): seq<Event> {
    if |events| <= MAX_REPLAY_EVENTS then events else events[|events| - MAX_REPLAY_EVENTS..]
  }

  /** What startup offers for replay: nothing if any line of the file does not parse. */
  function LoadedEvents(log: Log<Event>, floor: nat): seq<Event> {
    if Readable(log) then TakeLast(AtLeast(Items(log), floor)) else []
  }

  // ------------------------------------------------------------------ disk and memory

  datatype Disk = Disk(snapshot: Option<Snapshot>, log: Log<Event>)
  datatype Memory = Memory(snapshot: Snapshot, recent: seq<Event>)

  const BLANK: Disk := Disk(None, NO_LOG)

  function LoadedSnapshot(d: Disk): Snapshot {
    if d.snapshot.Some? then d.snapshot.value else EmptySnapshot(0)
  }

  /** What an operation leaves in memory, the disk after each of its writes, and a possible last append. */
  datatype Effect = Effect(memory: Memory, writes: seq<Disk>, appends: Option<Event>)

  function Pushed(recent: seq<Event>, e: Event): seq<Event> {
    if |recent| + 1 > MAX_REPLAY_EVENTS then (recent + [e])[1..] else recent + [e]
  }

  /** `#persist` of the changed snapshot, then `#emit`: number, persist again, append. */
  function PersistAndEmit(d: Disk, recent: seq<Event>, s: Snapshot, kind: EventKind, attemptId: AttemptId): Effect {
    var e := Event(s.nextEventSeq, kind, attemptId);
    var s' := s.(nextEventSeq := s.nextEventSeq + 1);
    var d2 := d.(snapshot := Some(s'));
    Effect(Memory(s', Pushed(recent, e)), [d.(snapshot := Some(s)), d2, d2.(log := Appended(d.log, e))], Some(e))
  }

  // ------------------------------------------------------------------ the transitions on a snapshot

  function IndexOf(entries: seq<Entry>, attemptId: AttemptId): (i: nat)
    ensures i <= |entries|
    ensures i < |entries| ==> entries[i].attemptId == attemptId
    ensures forall k :: 0 <= k < i ==> entries[k].attemptId != attemptId
  {
    if entries == [] || entries[0].attemptId == attemptId then 0 else
      var i := IndexOf(entries[1..], attemptId);
      assert forall k :: 0 < k < 1 + i ==> entries[k] == entries[1..][k - 1];
      1 + i
  }

  function FirstQueued(entries: seq<Entry>): (i: nat)
    ensures i <= |entries|
    ensures i < |entries| ==> entries[i].state.Queued?
    ensures forall k :: 0 <= k < i ==> !entries[k].state.Queued?
  {
    if entries == [] || entries[0].state.Queued? then 0 else
      var i := FirstQueued(entries[1..]);
      assert forall k :: 0 < k < 1 + i ==> entries[k] == entries[1..][k - 1];
      1 + i
  }

  function WithState(entries: seq<Entry>, i: nat, state: EntryState): seq<Entry>
    requires i < |entries|
  {
    entries[i := entries[i].(state := state)]
  }

  datatype Finish = Completed | FailedRun | Requeue

  datatype Command =
    | Enqueue(attemptId: AttemptId, now: Time)
    | Acquire(leaseId: LeaseId)
    | Release(leaseId: LeaseId, finish: Finish)
    | Pause(attemptId: AttemptId)
    | Resume(attemptId: AttemptId)
    | Skip(attemptId: AttemptId)
    | Cancel(attemptId: AttemptId)
    | Clear

  datatype Change =
    | Changes(snapshot: Snapshot, kind: EventKind, attemptId: AttemptId)
    | NoChange
    | NotFound
    | InvalidTransition
    | Cleared

  /** The lease without one attempt's claim on it. */
  function LeaseWithout(lease: Option<Lease>, attemptId: AttemptId): Option<Lease> {
    if lease.Some? && lease.value.attemptId == attemptId then None else lease
  }

  /** Moves one entry out of the running, releasing the lease if it was the leased one. */
  function Moved(s: Snapshot, attemptId: AttemptId, allowed: EntryState -> bool, state: EntryState, kind: EventKind): Change {
    var i := IndexOf(s.entries, attemptId);
    if i == |s.entries| then NotFound
    else if !allowed(s.entries[i].state) then InvalidTransition
    else Changes(s.(entries := WithState(s.entries, i, state), lease := LeaseWithout(s.lease, attemptId)), kind, attemptId)
  }

  function Decide(s: Snapshot, c: Command): Change {
    match c
    case Enqueue(attemptId, now) =>
      var i := IndexOf(s.entries, attemptId);
      var entry := Entry(attemptId, Queued, now);
      if i < |s.entries| && !Terminal(s.entries[i].state) then NoChange
      else Changes(s.(entries := if i < |s.entries| then s.entries[i := entry] else s.entries + [entry]), Enqueued, attemptId)
    case Acquire(leaseId) =>
      var i := FirstQueued(s.entries);
      if s.lease.Some? || i == |s.entries| then NoChange
      else
        var attemptId := s.entries[i].attemptId;
        Changes(s.(entries := WithState(s.entries, i, Active), lease := Some(Lease(leaseId, attemptId))), LeaseAcquired, attemptId)
    case Release(leaseId, finish) =>
      if s.lease.None? || s.lease.value.leaseId != leaseId then NoChange
      else
        var attemptId := s.lease.value.attemptId;
        var i := IndexOf(s.entries, attemptId);
        var state := match finish case Requeue => Queued case Completed => Done case FailedRun => Failed;
        Changes(s.(entries := if i < |s.entries| then WithState(s.entries, i, state) else s.entries, lease := None),
                Released, attemptId)
    case Pause(attemptId) => Moved(s, attemptId, st => st == Queued || st == Active, Paused, PausedEvent)
    case Resume(attemptId) =>
      var i := IndexOf(s.entries, attemptId);
      if i == |s.entries| then NotFound
      else if !s.entries[i].state.Paused? then InvalidTransition
      else Changes(s.(entries := WithState(s.entries, i, Queued)), Resumed, attemptId)
    case Skip(attemptId) => Moved(s, attemptId, st => !Terminal(st), Cancelled, Skipped)
    case Cancel(attemptId) => Moved(s, attemptId, st => !Terminal(st), Cancelled, CancelledEvent)
    case Clear => Cleared
  }

  function Perform(d: Disk, m: Memory, c: Command): Effect {
    match Decide(m.snapshot, c)
    case Changes(s, kind, attemptId) => PersistAndEmit(d, m.recent, s, kind, attemptId)
    case Cleared =>
      var s := EmptySnapshot(m.snapshot.nextEventSeq);
      var d1 := d.(snapshot := Some(s));
      Effect(Memory(s, []), [d1, d1.(log := NO_LOG)], None)
    case _ => Effect(m, [], None)
  }

  // ------------------------------------------------------------------ startup

  /** The event counter must be beyond every event that can be replayed. */
  function Counted(s: Snapshot, recent: seq<Event>): Snapshot {
    var next := if recent == [] then 0 else recent[|recent| - 1].number + 1;
    if next > s.nextEventSeq then s.(nextEventSeq := next) else s
  }

  /** The lease of a previous life is cleared and its entry returned to the queue. */
  function Unleased(s: Snapshot): Snapshot
    requires s.lease.Some?
  {
    var i := IndexOf(s.entries, s.lease.value.attemptId);
    s.(lease := None,
       entries := if i < |s.entries| && !Terminal(s.entries[i].state) then WithState(s.entries, i, Queued) else s.entries)
  }

  function Startup(d: Disk): Effect {
    var loaded := LoadedSnapshot(d);
    var recent := LoadedEvents(d.log, loaded.replayFloor);
    var s := Counted(loaded, recent);
    var counted := if s != loaded then [d.(snapshot := Some(s))] else [];
    if s.lease.None? then Effect(Memory(s, recent), counted, None) else
      var rest := PersistAndEmit(d, recent, Unleased(s), Released, s.lease.value.attemptId);
      rest.(writes := counted + rest.writes)
  }

  // ------------------------------------------------------------------ lease safety of one snapshot

  ghost predicate UniqueIds(entries: seq<Entry>) {
    forall i, j :: 0 <= i < j < |entries| ==> entries[i].attemptId != entries[j].attemptId
  }

  predicate Names(lease: Option<Lease>, attemptId: AttemptId) {
    lease.Some? && lease.value.attemptId == attemptId
  }

  /** An entry is active exactly when the lease names it, and a lease names an entry. */
  ghost predicate LeaseMatches(s: Snapshot) {
    && (forall i :: 0 <= i < |s.entries| ==> (s.entries[i].state.Active? <==> Names(s.lease, s.entries[i].attemptId)))
    && (s.lease.Some? ==> IndexOf(s.entries, s.lease.value.attemptId) < |s.entries|)
  }

  ghost predicate SnapshotOk(s: Snapshot) {
    UniqueIds(s.entries) && LeaseMatches(s) && s.replayFloor <= s.nextEventSeq
  }

  /** What the invariant says: at most one active entry, and a lease exactly when there is one. */
  lemma OneActiveEntry(s: Snapshot)
    requires SnapshotOk(s)
    ensures forall i, j :: 0 <= i < |s.entries| && 0 <= j < |s.entries| && s.entries[i].state.Active? && s.entries[j].state.Active? ==> i == j
    ensures s.lease.Some? <==> exists i :: 0 <= i < |s.entries| && s.entries[i].state.Active?
    ensures forall i :: 0 <= i < |s.entries| && s.entries[i].state.Active? ==> s.lease.value.attemptId == s.entries[i].attemptId
  {
    if s.lease.Some? {
      var i := IndexOf(s.entries, s.lease.value.attemptId);
      assert s.entries[i].state.Active?;
    }
  }

  lemma IndexUnchanged(entries: seq<Entry>, entries': seq<Entry>, attemptId: AttemptId)
    requires |entries| <= |entries'|
    requires forall k :: 0 <= k < |entries| ==> entries'[k].attemptId == entries[k].attemptId
    requires IndexOf(entries, attemptId) < |entries|
    ensures IndexOf(entries', attemptId) < |entries'|
  {
    assert entries'[IndexOf(entries, attemptId)].attemptId == attemptId;
  }

  /** Setting one entry's state keeps the ids, and leaves the lease right if it follows the change. */
  lemma WithStateKeeps(s: Snapshot, i: nat, state: EntryState, lease: Option<Lease>)
    requires SnapshotOk(s) && i < |s.entries|
    requires state.Active? <==> Names(lease, s.entries[i].attemptId)
    requires forall k :: 0 <= k < |s.entries| && k != i ==>
               (Names(lease, s.entries[k].attemptId) <==> Names(s.lease, s.entries[k].attemptId))
    requires lease.Some? ==> IndexOf(s.entries, lease.value.attemptId) < |s.entries|
    ensures SnapshotOk(s.(entries := WithState(s.entries, i, state), lease := lease))
  {
    if lease.Some? { IndexUnchanged(s.entries, WithState(s.entries, i, state), lease.value.attemptId); }
  }

  lemma EnqueueKeeps(s: Snapshot, attemptId: AttemptId, now: Time)
    requires SnapshotOk(s) && Decide(s, Enqueue(attemptId, now)).Changes?
    ensures SnapshotOk(Decide(s, Enqueue(attemptId, now)).snapshot)
  {
    var s' := Decide(s, Enqueue(attemptId, now)).snapshot;
    var i := IndexOf(s.entries, attemptId);
    if s.lease.Some? {
      IndexUnchanged(s.entries, s'.entries, s.lease.value.attemptId);
      var k := IndexOf(s.entries, s.lease.value.attemptId);
      assert s.entries[k].state.Active?;
    }
  }

  lemma AcquireKeeps(s: Snapshot, leaseId: LeaseId)
    requires SnapshotOk(s) && Decide(s, Acquire(leaseId)).Changes?
    ensures SnapshotOk(Decide(s, Acquire(leaseId)).snapshot)
  {
    var i := FirstQueued(s.entries);
    WithStateKeeps(s, i, Active, Some(Lease(leaseId, s.entries[i].attemptId)));
  }

  lemma ReleaseKeeps(s: Snapshot, leaseId: LeaseId, finish: Finish)
    requires SnapshotOk(s) && Decide(s, Release(leaseId, finish)).Changes?
    ensures SnapshotOk(Decide(s, Release(leaseId, finish)).snapshot)
  {
    var i := IndexOf(s.entries, s.lease.value.attemptId);
    WithStateKeeps(s, i, match finish case Requeue => Queued case Completed => Done case FailedRun => Failed, None);
  }

  lemma MovedKeeps(s: Snapshot, attemptId: AttemptId, allowed: EntryState -> bool, state: EntryState, kind: EventKind)
    requires SnapshotOk(s) && !state.Active? && Moved(s, attemptId, allowed, state, kind).Changes?
    ensures SnapshotOk(Moved(s, attemptId, allowed, state, kind).snapshot)
  {
    WithStateKeeps(s, IndexOf(s.entries, attemptId), state, LeaseWithout(s.lease, attemptId));
  }

  /** Every transition keeps the queue's lease safety and never lowers the event counter. */
  lemma DecideKeeps(s: Snapshot, c: Command)
    requires SnapshotOk(s) && Decide(s, c).Changes?
    ensures SnapshotOk(Decide(s, c).snapshot)
    ensures Decide(s, c).snapshot.nextEventSeq == s.nextEventSeq && Decide(s, c).snapshot.replayFloor == s.replayFloor
  {
    match c
    case Enqueue(attemptId, now) => EnqueueKeeps(s, attemptId, now);
    case Acquire(leaseId) => AcquireKeeps(s, leaseId);
    case Release(leaseId, finish) => ReleaseKeeps(s, leaseId, finish);
    case Pause(attemptId) => MovedKeeps(s, attemptId, st => st == Queued || st == Active, Paused, PausedEvent);
    case Resume(attemptId) => WithStateKeeps(s, IndexOf(s.entries, attemptId), Queued, s.lease);
    case Skip(attemptId) => MovedKeeps(s, attemptId, st => !Terminal(st), Cancelled, Skipped);
    case Cancel(attemptId) => MovedKeeps(s, attemptId, st => !Terminal(st), Cancelled, CancelledEvent);
    case Clear =>
  }

  lemma UnleasedKeeps(s: Snapshot)
    requires SnapshotOk(s) && s.lease.Some?
    ensures SnapshotOk(Unleased(s))
    ensures forall i :: 0 <= i < |Unleased(s).entries| ==> !Unleased(s).entries[i].state.Active?
  {
    var i := IndexOf(s.entries, s.lease.value.attemptId);
    WithStateKeeps(s, i, Queued, None);
  }

  // ------------------------------------------------------------------ the log

  predicate StrictlyIncreasing(events: seq<Event>) {
    forall i, j :: 0 <= i < j < |events| ==> events[i].number < events[j].number
  }

  predicate AllBelow(events: seq<Event>, n: nat) {
    forall i :: 0 <= i < |events| ==> events[i].number < n
  }

  predicate LogOk(log: Log<Event>, next: nat) {
    StrictlyIncreasing(Items(log)) && AllBelow(Items(log), next)
  }

  ghost predicate DiskOk(d: Disk) {
    if d.snapshot.None? then d.log == NO_LOG
    else SnapshotOk(d.snapshot.value) && LogOk(d.log, d.snapshot.value.nextEventSeq)
  }

  lemma AppendKeepsLog(log: Log<Event>, e: Event)
    requires LogOk(log, e.number)
    ensures LogOk(Appended(log, e), e.number + 1)
    ensures forall torn :: LogOk(TornAppend(log, e, torn), e.number + 1)
  {
    ItemsOfAppended(log, e);
    var lines := LineItems(log.lines);
    assert forall i :: 0 <= i < |lines| ==> lines[i] == Items(log)[i];
  }

  lemma {:induction false} AtLeastSubset(events: seq<Event>, floor: nat)
    ensures forall e :: e in AtLeast(events, floor) <==> e in events && e.number >= floor
    ensures StrictlyIncreasing(events) ==> StrictlyIncreasing(AtLeast(events, floor))
  {
    if events != [] {
      var init, last := events[..|events| - 1], events[|events| - 1];
      AtLeastSubset(init, floor);
      assert events == init + [last];
      if StrictlyIncreasing(events) {
        forall i, j | 0 <= i < j < |AtLeast(events, floor)|
          ensures AtLeast(events, floor)[i].number < AtLeast(events, floor)[j].number
        {
          if j == |AtLeast(init, floor)| {
            assert AtLeast(init, floor)[i] in init;
          }
        }
      }
    }
  }

  /** What memory may offer for replay: in order, never below the floor, never numbered ahead. */
  predicate RecentOk(recent: seq<Event>, floor: nat, next: nat) {
    && |recent| <= MAX_REPLAY_EVENTS && StrictlyIncreasing(recent) && AllBelow(recent, next)
    && forall i :: 0 <= i < |recent| ==> recent[i].number >= floor
  }

  lemma LoadedOk(log: Log<Event>, floor: nat, next: nat)
    requires LogOk(log, next)
    ensures RecentOk(LoadedEvents(log, floor), floor, next)
  {
    var all := AtLeast(Items(log), floor);
    AtLeastSubset(Items(log), floor);
    forall i | 0 <= i < |all|
      ensures floor <= all[i].number < next
    {
      assert all[i] in all;
    }
  }

  /** The replay tail in memory is what a restart would load, as long as the file can be read. */
  predicate TailExact(m: Memory, log: Log<Event>) {
    Readable(log) ==> m.recent == LoadedEvents(log, m.snapshot.replayFloor)
  }

  lemma PushedIsLoaded(log: Log<Event>, floor: nat, e: Event)
    requires Readable(log) && Readable(Appended(log, e)) && e.number >= floor
    ensures Pushed(LoadedEvents(log, floor), e) == LoadedEvents(Appended(log, e), floor)
  {
    ReadableAfterAppend(log, e);
    ItemsOfAppended(log, e);
    assert (Items(log) + [e])[..|Items(log)|] == Items(log);
    var all := AtLeast(Items(log), floor);
    assert AtLeast(Items(log) + [e], floor) == all + [e];
    if |all| >= MAX_REPLAY_EVENTS {
      assert (TakeLast(all) + [e])[1..] == TakeLast(all + [e]);
    }
  }

  // ------------------------------------------------------------------ one operation, cut anywhere

  /** The disk when an operation stops after `n` writes, with the next write possibly torn. */
  function CutAt(d: Disk, e: Effect, n: nat, torn: Option<bool>): Disk {
    var done := Min(n, |e.writes|);
    var at := if done == 0 then d else e.writes[done - 1];
    if torn.Some? && e.appends.Some? && done == |e.writes| - 1
    then at.(log := TornAppend(at.log, e.appends.value, torn.value)) else at
  }

  function Finished(d: Disk, e: Effect): Disk {
    if e.writes == [] then d else e.writes[|e.writes| - 1]
  }

  ghost predicate MemoryOk(d: Disk, m: Memory) {
    && m.snapshot == LoadedSnapshot(d)
    && SnapshotOk(m.snapshot)
    && RecentOk(m.recent, m.snapshot.replayFloor, m.snapshot.nextEventSeq)
    && TailExact(m, d.log)
  }

  /** Every cut of the effect leaves a good disk; running it to the end leaves good memory too. */
  ghost predicate EffectOk(d: Disk, e: Effect) {
    && (forall n: nat, torn :: DiskOk(CutAt(d, e, n, torn)))
    && DiskOk(Finished(d, e)) && MemoryOk(Finished(d, e), e.memory)
  }

  /** The floor never sinks, and events below it are never added, whatever part of the effect happened. */
  predicate KeepsFloor(d: Disk, d': Disk) {
    LoadedSnapshot(d).replayFloor <= LoadedSnapshot(d').replayFloor
  }

  lemma SnapshotCounts(s: Snapshot, next: nat)
    requires SnapshotOk(s) && next >= s.nextEventSeq
    ensures SnapshotOk(s.(nextEventSeq := next))
  {
  }

  /** The four disks an emitting operation can leave behind. */
  lemma EmitDisksOk(d: Disk, s: Snapshot, e: Event)
    requires SnapshotOk(s) && LogOk(d.log, s.nextEventSeq) && e.number == s.nextEventSeq
    ensures var s' := s.(nextEventSeq := s.nextEventSeq + 1);
            && DiskOk(Disk(Some(s), d.log)) && DiskOk(Disk(Some(s'), d.log))
            && DiskOk(Disk(Some(s'), Appended(d.log, e)))
            && forall torn :: DiskOk(Disk(Some(s'), TornAppend(d.log, e, torn)))
  {
    SnapshotCounts(s, s.nextEventSeq + 1);
    AppendKeepsLog(d.log, e);
  }

  lemma EmitCutsOk(d: Disk, recent: seq<Event>, s: Snapshot, kind: EventKind, attemptId: AttemptId, n: nat, torn: Option<bool>)
    requires DiskOk(d) && SnapshotOk(s) && LogOk(d.log, s.nextEventSeq)
    ensures DiskOk(CutAt(d, PersistAndEmit(d, recent, s, kind, attemptId), n, torn))
  {
    var effect := PersistAndEmit(d, recent, s, kind, attemptId);
    var e, s' := effect.appends.value, s.(nextEventSeq := s.nextEventSeq + 1);
    EmitDisksOk(d, s, e);
    CutCases(d, effect, n, torn);
    assert effect.writes == [Disk(Some(s), d.log), Disk(Some(s'), d.log), Disk(Some(s'), Appended(d.log, e))];
  }

  lemma CutCases(d: Disk, e: Effect, n: nat, torn: Option<bool>)
    requires |e.writes| == 3 && e.appends.Some?
    ensures var at := CutAt(d, e, n, torn);
            at == d || at in e.writes || (torn.Some? && at == e.writes[1].(log := TornAppend(e.writes[1].log, e.appends.value, torn.value)))
  {
  }

  lemma EmitMemoryOk(d: Disk, recent: seq<Event>, s: Snapshot, kind: EventKind, attemptId: AttemptId)
    requires SnapshotOk(s) && RecentOk(recent, s.replayFloor, s.nextEventSeq)
    requires Readable(d.log) ==> recent == LoadedEvents(d.log, s.replayFloor)
    ensures var effect := PersistAndEmit(d, recent, s, kind, attemptId);
            MemoryOk(Finished(d, effect), effect.memory)
  {
    var e := Event(s.nextEventSeq, kind, attemptId);
    if Readable(Appended(d.log, e)) {
      ReadableAfterAppend(d.log, e);
      PushedIsLoaded(d.log, s.replayFloor, e);
    }
  }

  lemma EmitOk(d: Disk, recent: seq<Event>, s: Snapshot, kind: EventKind, attemptId: AttemptId)
    requires DiskOk(d) && SnapshotOk(s)
    requires LogOk(d.log, s.nextEventSeq) && RecentOk(recent, s.replayFloor, s.nextEventSeq)
    requires Readable(d.log) ==> recent == LoadedEvents(d.log, s.replayFloor)
    ensures EffectOk(d, PersistAndEmit(d, recent, s, kind, attemptId))
  {
    var effect := PersistAndEmit(d, recent, s, kind, attemptId);
    forall n: nat, torn
      ensures DiskOk(CutAt(d, effect, n, torn))
    {
      EmitCutsOk(d, recent, s, kind, attemptId, n, torn);
    }
    EmitMemoryOk(d, recent, s, kind, attemptId);
    assert CutAt(d, effect, 3, None) == Finished(d, effect);
  }

  lemma PerformOk(d: Disk, m: Memory, c: Command)
    requires DiskOk(d) && MemoryOk(d, m)
    ensures EffectOk(d, Perform(d, m, c))
  {
    assert LogOk(d.log, m.snapshot.nextEventSeq) by {
      if d.snapshot.None? { assert Items(d.log) == []; }
    }
    match Decide(m.snapshot, c)
    case Changes(s, kind, attemptId) =>
      DecideKeeps(m.snapshot, c);
      EmitOk(d, m.recent, s, kind, attemptId);
    case Cleared => ClearOk(d, m);
    case _ =>
      forall n: nat, torn
        ensures DiskOk(CutAt(d, Perform(d, m, c), n, torn))
      {
        assert CutAt(d, Perform(d, m, c), n, torn) == d;
      }
  }

  lemma ClearOk(d: Disk, m: Memory)
    requires DiskOk(d) && MemoryOk(d, m) && LogOk(d.log, m.snapshot.nextEventSeq)
    ensures EffectOk(d, Perform(d, m, Clear))
  {
    var effect := Perform(d, m, Clear);
    var s := EmptySnapshot(m.snapshot.nextEventSeq);
    var d1, d2 := Disk(Some(s), d.log), Disk(Some(s), NO_LOG);
    ClearedDisksOk(d, s);
    assert effect == Effect(Memory(s, []), [d1, d2], None);
    forall n: nat, torn
      ensures DiskOk(CutAt(d, effect, n, torn))
    {
      ClearCuts(d, effect, n, torn);
    }
    ClearedMemoryOk(s);
  }

  lemma ClearCuts(d: Disk, e: Effect, n: nat, torn: Option<bool>)
    requires |e.writes| == 2 && e.appends.None?
    ensures CutAt(d, e, n, torn) == if n == 0 then d else if n == 1 then e.writes[0] else e.writes[1]
  {
  }

  lemma ClearedDisksOk(d: Disk, s: Snapshot)
    requires s == EmptySnapshot(s.nextEventSeq) && LogOk(d.log, s.nextEventSeq)
    ensures DiskOk(Disk(Some(s), d.log)) && DiskOk(Disk(Some(s), NO_LOG))
  {
    assert Items(NO_LOG) == [];
  }

  lemma ClearedMemoryOk(s: Snapshot)
    requires s == EmptySnapshot(s.nextEventSeq)
    ensures MemoryOk(Disk(Some(s), NO_LOG), Memory(s, []))
  {
    assert Items(NO_LOG) == [];
    assert AtLeast(Items(NO_LOG), s.replayFloor) == [];
  }

  /** Startup from any good disk: safe at every cut, and it ends with no lease and nothing active. */
  lemma StartupOk(d: Disk)
    requires DiskOk(d)
    ensures EffectOk(d, Startup(d))
    ensures Startup(d).memory.snapshot.lease.None?
    ensures forall e :: e in Startup(d).memory.snapshot.entries ==> !e.state.Active?
  {
    var s := LoadedSnapshot(d);
    var recent := LoadedEvents(d.log, s.replayFloor);
    assert LogOk(d.log, s.nextEventSeq) by {
      if d.snapshot.None? { assert Items(d.log) == []; }
    }
    LoadedOk(d.log, s.replayFloor, s.nextEventSeq);
    assert Counted(s, recent) == s;
    if s.lease.None? {
      forall n: nat, torn
        ensures DiskOk(CutAt(d, Startup(d), n, torn))
      {
        assert CutAt(d, Startup(d), n, torn) == d;
      }
    } else {
      UnleasedKeeps(s);
      EmitOk(d, recent, Unleased(s), Released, s.lease.value.attemptId);
      var rest := PersistAndEmit(d, recent, Unleased(s), Released, s.lease.value.attemptId);
      assert [] + rest.writes == rest.writes;
    }
  }

  // ------------------------------------------------------------------ whole runs

  /** The process is up with its memory, or down. `used` are the lease ids ever minted. */
  datatype World = World(disk: Disk, process: Option<Memory>, used: set<LeaseId>)

  datatype Step =
    | Boot
    | Run(command: Command)
    | CrashInBoot(after: nat, torn: Option<bool>)
    | CrashIn(command: Command, after: nat, torn: Option<bool>)

  predicate Fresh(w: World, c: Command) {
    c.Acquire? ==> c.leaseId !in w.used
  }

  function Minted(w: World, c: Command): set<LeaseId> {
    if c.Acquire? then w.used + {c.leaseId} else w.used
  }

  /** One step; a step that cannot happen in this state does not. */
  function Apply(w: World, step: Step): World {
    match step
    case Boot =>
      if w.process.Some? then w else
        var e := Startup(w.disk);
        w.(disk := Finished(w.disk, e), process := Some(e.memory))
    case CrashInBoot(n, torn) =>
      if w.process.Some? then w else w.(disk := CutAt(w.disk, Startup(w.disk), n, torn))
    case Run(c) =>
      if w.process.None? || !Fresh(w, c) then w else
        var e := Perform(w.disk, w.process.value, c);
        World(Finished(w.disk, e), Some(e.memory), Minted(w, c))
    case CrashIn(c, n, torn) =>
      if w.process.None? || !Fresh(w, c) then w else
        World(CutAt(w.disk, Perform(w.disk, w.process.value, c), n, torn), None, Minted(w, c))
  }

  function From(w: World, steps: seq<Step>): World {
    if steps == [] then w else Apply(From(w, steps[..|steps| - 1]), steps[|steps| - 1])
  }

  function After(steps: seq<Step>): World {
    From(World(BLANK, None, {}), steps)
  }

  ghost predicate WorldOk(w: World) {
    && DiskOk(w.disk)
    && (w.process.Some? ==> MemoryOk(w.disk, w.process.value))
    && (LoadedSnapshot(w.disk).lease.Some? ==> LoadedSnapshot(w.disk).lease.value.leaseId in w.used)
  }

  /** The lease on disk after a cut operation is the old one, none, or the one the operation minted. */
  lemma CutLease(w: World, c: Command, n: nat, torn: Option<bool>)
    requires w.process.Some? && MemoryOk(w.disk, w.process.value)
    ensures var lease := LoadedSnapshot(CutAt(w.disk, Perform(w.disk, w.process.value, c), n, torn)).lease;
            lease.None? || lease == LoadedSnapshot(w.disk).lease || (c.Acquire? && lease.value.leaseId == c.leaseId)
    ensures var lease := Perform(w.disk, w.process.value, c).memory.snapshot.lease;
            lease.None? || lease == LoadedSnapshot(w.disk).lease || (c.Acquire? && lease.value.leaseId == c.leaseId)
  {
  }

  lemma BootLease(d: Disk, n: nat, torn: Option<bool>)
    ensures var lease := LoadedSnapshot(CutAt(d, Startup(d), n, torn)).lease;
            lease.None? || lease == LoadedSnapshot(d).lease
  {
  }

  lemma StepKeepsWorld(w: World, step: Step)
    requires WorldOk(w)
    ensures WorldOk(Apply(w, step))
  {
    match step
    case Boot => StartupOk(w.disk);
    case CrashInBoot(n, torn) =>
      StartupOk(w.disk);
      BootLease(w.disk, n, torn);
    case Run(c) =>
      if w.process.Some? && Fresh(w, c) {
        PerformOk(w.disk, w.process.value, c);
        CutLease(w, c, 0, None);
      }
    case CrashIn(c, n, torn) =>
      if w.process.Some? && Fresh(w, c) {
        PerformOk(w.disk, w.process.value, c);
        CutLease(w, c, n, torn);
      }
  }

  /**
   Over all runs with crashes and restarts, every snapshot that is ever on disk and every state a
   process is ever in has unique attempt ids and a lease exactly when one entry is active and named by
   it, and the numbers in the event log strictly increase.
   */
  lemma {:induction false} RunsKeepQueue(steps: seq<Step>)
    ensures WorldOk(After(steps))
  {
    if steps != [] {
      RunsKeepQueue(steps[..|steps| - 1]);
      StepKeepsWorld(After(steps[..|steps| - 1]), steps[|steps| - 1]);
    } else {
      assert Items(NO_LOG) == [];
    }
  }

  /** Startup after any run ends with no lease and nothing active. */
  lemma EveryBootEndsIdle(steps: seq<Step>)
    requires After(steps).process.None?
    ensures var w := Apply(After(steps), Boot);
            && w.process.value.snapshot.lease.None? && LoadedSnapshot(w.disk).lease.None?
            && forall e :: e in w.process.value.snapshot.entries ==> !e.state.Active?
  {
    RunsKeepQueue(steps);
    StartupOk(After(steps).disk);
  }

  predicate Holds(w: World, leaseId: LeaseId) {
    LoadedSnapshot(w.disk).lease.Some? && LoadedSnapshot(w.disk).lease.value.leaseId == leaseId
  }

  predicate Ended(w: World, leaseId: LeaseId) {
    leaseId in w.used && !Holds(w, leaseId)
  }

  lemma StepKeepsEnded(w: World, step: Step, leaseId: LeaseId)
    requires WorldOk(w) && Ended(w, leaseId)
    ensures Ended(Apply(w, step), leaseId)
  {
    match step
    case Boot => StartupOk(w.disk);
    case CrashInBoot(n, torn) => BootLease(w.disk, n, torn);
    case Run(c) =>
      if w.process.Some? && Fresh(w, c) {
        PerformOk(w.disk, w.process.value, c);
        CutLease(w, c, 0, None);
      }
    case CrashIn(c, n, torn) =>
      if w.process.Some? && Fresh(w, c) { CutLease(w, c, n, torn); }
  }

  /** A release with a lease id that is not the current one changes nothing. */
  lemma StaleReleaseIsNoop(w: World, leaseId: LeaseId, finish: Finish)
    requires WorldOk(w) && Ended(w, leaseId)
    ensures Apply(w, Run(Release(leaseId, finish))) == w
  {
  }

  /** A lease that has ended never comes back, so its late release changes nothing, ever. */
  lemma {:induction false} EndedLeaseStaysEnded(w: World, steps: seq<Step>, leaseId: LeaseId, finish: Finish)
    requires WorldOk(w) && Ended(w, leaseId)
    ensures WorldOk(From(w, steps)) && Ended(From(w, steps), leaseId)
    ensures Apply(From(w, steps), Run(Release(leaseId, finish))) == From(w, steps)
  {
    if steps != [] {
      EndedLeaseStaysEnded(w, steps[..|steps| - 1], leaseId, finish);
      StepKeepsWorld(From(w, steps[..|steps| - 1]), steps[|steps| - 1]);
      StepKeepsEnded(From(w, steps[..|steps| - 1]), steps[|steps| - 1], leaseId);
    }
    StaleReleaseIsNoop(From(w, steps), leaseId, finish);
  }

  // ------------------------------------------------------------------ clear

  predicate FloorAtLeast(w: World, floor: nat) {
    LoadedSnapshot(w.disk).replayFloor >= floor
  }

  lemma StepKeepsFloor(w: World, step: Step, floor: nat)
    requires WorldOk(w) && FloorAtLeast(w, floor)
    ensures FloorAtLeast(Apply(w, step), floor)
  {
    match step
    case Boot => BootKeepsFloor(w.disk, 0, None);
    case CrashInBoot(n, torn) => BootKeepsFloor(w.disk, n, torn);
    case Run(c) =>
      if w.process.Some? && Fresh(w, c) { PerformKeepsFloor(w.disk, w.process.value, c, 9, None); }
    case CrashIn(c, n, torn) =>
      if w.process.Some? && Fresh(w, c) { PerformKeepsFloor(w.disk, w.process.value, c, n, torn); }
  }

  lemma BootKeepsFloor(d: Disk, n: nat, torn: Option<bool>)
    ensures KeepsFloor(d, CutAt(d, Startup(d), n, torn)) && KeepsFloor(d, Finished(d, Startup(d)))
  {
  }

  lemma PerformKeepsFloor(d: Disk, m: Memory, c: Command, n: nat, torn: Option<bool>)
    requires DiskOk(d) && MemoryOk(d, m)
    ensures KeepsFloor(d, CutAt(d, Perform(d, m, c), n, torn)) && KeepsFloor(d, Finished(d, Perform(d, m, c)))
  {
    if Decide(m.snapshot, c).Changes? { DecideKeeps(m.snapshot, c); }
  }

  lemma {:induction false} FromKeepsFloor(w: World, steps: seq<Step>, floor: nat)
    requires WorldOk(w) && FloorAtLeast(w, floor)
    ensures WorldOk(From(w, steps)) && FloorAtLeast(From(w, steps), floor)
  {
    if steps != [] {
      FromKeepsFloor(w, steps[..|steps| - 1], floor);
      StepKeepsWorld(From(w, steps[..|steps| - 1]), steps[|steps| - 1]);
      StepKeepsFloor(From(w, steps[..|steps| - 1]), steps[|steps| - 1], floor);
    }
  }

  /** The first write of a clear already raises the floor above every event there is. */
  lemma ClearRaisesFloor(w: World, n: nat, torn: Option<bool>)
    requires WorldOk(w) && w.process.Some? && n >= 1
    ensures var floor := w.process.value.snapshot.nextEventSeq;
            && AllBelow(Items(w.disk.log), floor) && AllBelow(w.process.value.recent, floor)
            && FloorAtLeast(Apply(w, CrashIn(Clear, n, torn)), floor) && FloorAtLeast(Apply(w, Run(Clear)), floor)
  {
    if w.disk.snapshot.None? { assert Items(w.disk.log) == []; }
    ClearWrites(w.disk, w.process.value, n, torn);
    assert Apply(w, CrashIn(Clear, n, torn)).disk == CutAt(w.disk, Perform(w.disk, w.process.value, Clear), n, torn);
  }

  lemma ClearWrites(d: Disk, m: Memory, n: nat, torn: Option<bool>)
    requires n >= 1
    ensures CutAt(d, Perform(d, m, Clear), n, torn).snapshot == Some(EmptySnapshot(m.snapshot.nextEventSeq))
    ensures Finished(d, Perform(d, m, Clear)).snapshot == Some(EmptySnapshot(m.snapshot.nextEventSeq))
  {
  }

  /** Nothing numbered below the floor is offered for replay. */
  predicate ReplaysOnly(w: World, floor: nat) {
    w.process.Some? ==> forall i :: 0 <= i < |w.process.value.recent| ==> w.process.value.recent[i].number >= floor
  }

  /**
   Once the first write of a clear has happened, even if the log was never truncated, nothing numbered
   before the clear is ever offered for replay again, through any further crashes and restarts.
   */
  lemma ClearedEventsStayGone(w: World, n: nat, torn: Option<bool>, steps: seq<Step>)
    requires WorldOk(w) && w.process.Some? && n >= 1
    ensures AllBelow(Items(w.disk.log), w.process.value.snapshot.nextEventSeq)
    ensures ReplaysOnly(From(Apply(w, CrashIn(Clear, n, torn)), steps), w.process.value.snapshot.nextEventSeq)
    ensures ReplaysOnly(From(Apply(w, Run(Clear)), steps), w.process.value.snapshot.nextEventSeq)
  {
    var floor := w.process.value.snapshot.nextEventSeq;
    ClearRaisesFloor(w, n, torn);
    StepKeepsWorld(w, CrashIn(Clear, n, torn));
    StepKeepsWorld(w, Run(Clear));
    ReplaysOnlyAbove(Apply(w, CrashIn(Clear, n, torn)), steps, floor);
    ReplaysOnlyAbove(Apply(w, Run(Clear)), steps, floor);
  }

  lemma ReplaysOnlyAbove(w: World, steps: seq<Step>, floor: nat)
    requires WorldOk(w) && FloorAtLeast(w, floor)
    ensures ReplaysOnly(From(w, steps), floor)
  {
    FromKeepsFloor(w, steps, floor);
  }

  // ------------------------------------------------------------------ the class

  class ApplicationQueueStore {
    var entries: seq<Entry>
    var lease: Option<Lease>
    var nextEventSeq: nat
    var replayFloor: nat
    var recentEvents: seq<Event>
    var disk: Disk
    ghost var trail: seq<Disk>  // the disk after each write

    ghost function State(): Memory
      reads this
    {
      Memory(Snapshot(entries, lease, nextEventSeq, replayFloor), recentEvents)
    }

    /** The whole effect of one command: memory, disk, and every state the disk went through. */
    ghost predicate Did(d: Disk, m: Memory, before: seq<Disk>, c: Command)
      reads this
    {
      var e := Perform(d, m, c);
      State() == e.memory && disk == Finished(d, e) && trail == before + e.writes
    }

    constructor (disk: Disk)
      requires DiskOk(disk)
      ensures State() == Startup(disk).memory && this.disk == Finished(disk, Startup(disk))
      ensures trail == Startup(disk).writes
    {
      var loaded := LoadedSnapshot(disk);
      var recent := LoadedEvents(disk.log, loaded.replayFloor);
      this.disk := disk;
      entries, lease, replayFloor, recentEvents := loaded.entries, loaded.lease, loaded.replayFloor, recent;
      nextEventSeq := loaded.nextEventSeq;
      trail := [];
      new;
      var next := if recent == [] then 0 else recent[|recent| - 1].number + 1;
      if next > nextEventSeq {
        nextEventSeq := next;
        Persist();
      }
      ReconcileStaleLease();
    }

    method ReconcileStaleLease()
      modifies this
      ensures old(lease).None? ==> State() == old(State()) && disk == old(disk) && trail == old(trail)
      ensures old(lease).Some? ==>
                var e := PersistAndEmit(old(disk), old(recentEvents), Unleased(old(State()).snapshot), Released, old(lease).value.attemptId);
                State() == e.memory && disk == Finished(old(disk), e) && trail == old(trail) + e.writes
    {
      if lease.None? { return; }
      var attemptId := lease.value.attemptId;
      var i := FindIndex(attemptId);
      lease := None;
      if i < |entries| && !Terminal(entries[i].state) { SetState(i, Queued); }
      Persist();
      Emit(Released, attemptId);
    }

    method Persist()
      modifies this`disk, this`trail
      ensures disk == old(disk).(snapshot := Some(State().snapshot)) && trail == old(trail) + [disk]
    {
      disk := disk.(snapshot := Some(Snapshot(entries, lease, nextEventSeq, replayFloor)));
      trail := trail + [disk];
    }

    method Emit(kind: EventKind, attemptId: AttemptId)
      modifies this`nextEventSeq, this`recentEvents, this`disk, this`trail
      ensures var e := Event(old(nextEventSeq), kind, attemptId);
              var d := old(disk).(snapshot := Some(State().snapshot));
              && nextEventSeq == old(nextEventSeq) + 1 && recentEvents == Pushed(old(recentEvents), e)
              && disk == d.(log := Appended(old(disk).log, e)) && trail == old(trail) + [d, disk]
    {
      var e := Event(nextEventSeq, kind, attemptId);
      nextEventSeq := nextEventSeq + 1;
      Persist();
      disk := disk.(log := Appended(disk.log, e));
      trail := trail + [disk];
      recentEvents := recentEvents + [e];
      if |recentEvents| > MAX_REPLAY_EVENTS { recentEvents := recentEvents[1..]; }
    }

    method FindIndex(attemptId: AttemptId) returns (i: nat)
      ensures i == IndexOf(entries, attemptId)
    {
      i := 0;
      while i < |entries| && entries[i].attemptId != attemptId
        invariant i <= |entries|
        invariant forall k :: 0 <= k < i ==> entries[k].attemptId != attemptId
      {
        i := i + 1;
      }
      assert IndexOf(entries, attemptId) >= i;
    }

    method FindFirstQueued() returns (i: nat)
      ensures i == FirstQueued(entries)
    {
      i := 0;
      while i < |entries| && !entries[i].state.Queued?
        invariant i <= |entries|
        invariant forall k :: 0 <= k < i ==> !entries[k].state.Queued?
      {
        i := i + 1;
      }
      assert FirstQueued(entries) >= i;
    }

    method SetState(i: nat, state: EntryState)
      requires i < |entries|
      modifies this`entries
      ensures entries == WithState(old(entries), i, state)
    {
      entries := entries[i := entries[i].(state := state)];
    }

    method Enqueue(attemptId: AttemptId, now: Time)
      modifies this
      ensures Did(old(disk), old(State()), old(trail), Command.Enqueue(attemptId, now))
    {
      var i := FindIndex(attemptId);
      if i < |entries| && !Terminal(entries[i].state) { return; }
      var entry := Entry(attemptId, Queued, now);
      if i < |entries| {
        entries := entries[i := entry];
      } else {
        entries := entries + [entry];
      }
      Persist();
      Emit(Enqueued, attemptId);
    }

    method AcquireNextLease(leaseId: LeaseId) returns (granted: Option<Lease>)
      modifies this
      ensures Did(old(disk), old(State()), old(trail), Acquire(leaseId))
      ensures granted == if Decide(old(State()).snapshot, Acquire(leaseId)).Changes? then lease else None
    {
      if lease.Some? { return None; }
      var i := FindFirstQueued();
      if i == |entries| { return None; }
      SetState(i, Active);
      lease := Some(Lease(leaseId, entries[i].attemptId));
      Persist();
      Emit(LeaseAcquired, entries[i].attemptId);
      return lease;
    }

    method ReleaseLease(leaseId: LeaseId, finish: Finish)
      modifies this
      ensures Did(old(disk), old(State()), old(trail), Release(leaseId, finish))
    {
      if lease.None? || lease.value.leaseId != leaseId { return; }
      var attemptId := lease.value.attemptId;
      var i := FindIndex(attemptId);
      lease := None;
      if i < |entries| {
        SetState(i, match finish case Requeue => Queued case Completed => Done case FailedRun => Failed);
      }
      Persist();
      Emit(Released, attemptId);
    }

    method Pause(attemptId: AttemptId) returns (result: Change)
      modifies this
      ensures Did(old(disk), old(State()), old(trail), Command.Pause(attemptId))
      ensures result == Decide(old(State()).snapshot, Command.Pause(attemptId))
    {
      var i := FindIndex(attemptId);
      if i == |entries| { return NotFound; }
      if !entries[i].state.Queued? && !entries[i].state.Active? { return InvalidTransition; }
      result := Leave(i, attemptId, Paused, PausedEvent);
    }

    method Resume(attemptId: AttemptId) returns (result: Change)
      modifies this
      ensures Did(old(disk), old(State()), old(trail), Command.Resume(attemptId))
      ensures result == Decide(old(State()).snapshot, Command.Resume(attemptId))
    {
      var i := FindIndex(attemptId);
      if i == |entries| { return NotFound; }
      if !entries[i].state.Paused? { return InvalidTransition; }
      SetState(i, Queued);
      result := Changes(Snapshot(entries, lease, nextEventSeq, replayFloor), Resumed, attemptId);
      Persist();
      Emit(Resumed, attemptId);
    }

    method Skip(attemptId: AttemptId) returns (result: Change)
      modifies this
      ensures Did(old(disk), old(State()), old(trail), Command.Skip(attemptId))
      ensures result == Decide(old(State()).snapshot, Command.Skip(attemptId))
    {
      var i := FindIndex(attemptId);
      if i == |entries| { return NotFound; }
      if Terminal(entries[i].state) { return InvalidTransition; }
      result := Leave(i, attemptId, Cancelled, Skipped);
    }

    method Cancel(attemptId: AttemptId) returns (result: Change)
      modifies this
      ensures Did(old(disk), old(State()), old(trail), Command.Cancel(attemptId))
      ensures result == Decide(old(State()).snapshot, Command.Cancel(attemptId))
    {
      var i := FindIndex(attemptId);
      if i == |entries| { return NotFound; }
      if Terminal(entries[i].state) { return InvalidTransition; }
      result := Leave(i, attemptId, Cancelled, CancelledEvent);
    }

    /** The common end of pause, skip and cancel. */
    method Leave(i: nat, attemptId: AttemptId, state: EntryState, kind: EventKind) returns (result: Change)
      requires i < |entries|
      modifies this
      ensures var s := old(State()).snapshot;
              var s' := s.(entries := WithState(s.entries, i, state), lease := LeaseWithout(s.lease, attemptId));
              var e := PersistAndEmit(old(disk), old(recentEvents), s', kind, attemptId);
              && result == Changes(s', kind, attemptId)
              && State() == e.memory && disk == Finished(old(disk), e) && trail == old(trail) + e.writes
    {
      if lease.Some? && lease.value.attemptId == attemptId { lease := None; }
      SetState(i, state);
      result := Changes(Snapshot(entries, lease, nextEventSeq, replayFloor), kind, attemptId);
      Persist();
      Emit(kind, attemptId);
    }

    method Clear() returns (count: nat)
      modifies this
      ensures Did(old(disk), old(State()), old(trail), Command.Clear)
      ensures count == |old(entries)|
    {
      count := |entries|;
      entries, lease, replayFloor := [], None, nextEventSeq;
      recentEvents := [];
      Persist();
      disk := disk.(log := NO_LOG);
      trail := trail + [disk];
    }
  }
}
