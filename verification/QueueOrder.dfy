/**
 Who the queue promotes. The scheduler takes the first queued entry of the list, and its documentation
 calls that the longest-waiting one. An ended attempt that is enqueued again takes its old place with a
 new time, so this is true of some runs only; here is of which.
 */
module QueueOrder {
  import opened Basics
  import opened LineLog
  import opened ApplicationQueue

  predicate Live(e: Entry) {
    !Terminal(e.state)
  }

  /** Entries that can still be promoted stand in the order in which they were queued. */
  predicate LiveInOrder(entries: seq<Entry>) {
    forall i, j :: 0 <= i < j < |entries| && Live(entries[i]) && Live(entries[j]) ==> entries[i].queuedAt <= entries[j].queuedAt
  }

  /** No queued entry has waited longer than the i-th. */
  predicate LongestWaiting(entries: seq<Entry>, i: nat)
    requires i < |entries|
  {
    forall k :: 0 <= k < |entries| && entries[k].state.Queued? ==> entries[i].queuedAt <= entries[k].queuedAt
  }

  /** If the scheduler were to promote an entry now, it would be the one that waited longest. */
  predicate PromotesLongest(s: Snapshot) {
    s.lease.None? && FirstQueued(s.entries) < |s.entries| ==> LongestWaiting(s.entries, FirstQueued(s.entries))
  }

  // ------------------------------------------------------------------ one command

  /** An enqueue that does nothing, or whose time fits the place it takes. */
  predicate InTurn(entries: seq<Entry>, c: Command) {
    c.Enqueue? ==>
      var i := IndexOf(entries, c.attemptId);
      || (i < |entries| && Live(entries[i]))
      || (&& (forall k :: 0 <= k < i && Live(entries[k]) ==> entries[k].queuedAt <= c.now)
          && (forall k :: i < k < |entries| && Live(entries[k]) ==> c.now <= entries[k].queuedAt))
  }

  lemma EnqueueOrder(s: Snapshot, attemptId: AttemptId, now: Time)
    requires LiveInOrder(s.entries) && Decide(s, Enqueue(attemptId, now)).Changes?
    ensures LiveInOrder(Decide(s, Enqueue(attemptId, now)).snapshot.entries) <==> InTurn(s.entries, Enqueue(attemptId, now))
  {
    var i, after := IndexOf(s.entries, attemptId), Decide(s, Enqueue(attemptId, now)).snapshot.entries;
    assert after[i] == Entry(attemptId, Queued, now) && forall k :: 0 <= k < |s.entries| && k != i ==> after[k] == s.entries[k];
    if LiveInOrder(after) {
      forall k | 0 <= k < i && Live(s.entries[k]) ensures s.entries[k].queuedAt <= now { assert Live(after[k]); }
      forall k | i < k < |s.entries| && Live(s.entries[k]) ensures now <= s.entries[k].queuedAt { assert Live(after[k]); }
    }
  }

  /** A change of state that wakes no ended entry. */
  lemma WithStateOrder(entries: seq<Entry>, i: nat, state: EntryState)
    requires LiveInOrder(entries) && i < |entries| && (Live(entries[i]) || Terminal(state))
    ensures LiveInOrder(WithState(entries, i, state))
  {
    var after := WithState(entries, i, state);
    forall a, b | 0 <= a < b < |after| && Live(after[a]) && Live(after[b]) ensures after[a].queuedAt <= after[b].queuedAt {
      assert Live(entries[a]) && Live(entries[b]);
    }
  }

  /** From a queue in order, a command leaves it in order exactly when it is no enqueue out of turn. */
  lemma OrderKeptExactly(s: Snapshot, c: Command)
    requires SnapshotOk(s) && LiveInOrder(s.entries) && Decide(s, c).Changes?
    ensures LiveInOrder(Decide(s, c).snapshot.entries) <==> InTurn(s.entries, c)
  {
    match c
    case Enqueue(attemptId, now) => EnqueueOrder(s, attemptId, now);
    case Acquire(_) => WithStateOrder(s.entries, FirstQueued(s.entries), Active);
    case Release(_, finish) =>
      var i := IndexOf(s.entries, s.lease.value.attemptId);
      assert s.entries[i].state.Active?;
      WithStateOrder(s.entries, i, match finish case Requeue => Queued case Completed => Done case FailedRun => Failed);
    case Pause(id) => WithStateOrder(s.entries, IndexOf(s.entries, id), Paused);
    case Resume(id) => WithStateOrder(s.entries, IndexOf(s.entries, id), Queued);
    case Skip(id) => WithStateOrder(s.entries, IndexOf(s.entries, id), Cancelled);
    case Cancel(id) => WithStateOrder(s.entries, IndexOf(s.entries, id), Cancelled);
    case Clear =>
  }

  predicate NoneLiveBehind(entries: seq<Entry>, i: nat) {
    forall k :: i < k < |entries| ==> !Live(entries[k])
  }

  /** With a clock past every time in the queue: a new attempt is in turn, an ended one only with no live entry behind its place. */
  lemma InTurnByTheClock(entries: seq<Entry>, attemptId: AttemptId, now: Time)
    requires forall k :: 0 <= k < |entries| ==> entries[k].queuedAt < now
    ensures var i := IndexOf(entries, attemptId);
            InTurn(entries, Enqueue(attemptId, now)) <==> (i < |entries| && Live(entries[i])) || NoneLiveBehind(entries, i)
  {
  }

  /** Enqueueing an ended attempt again leaves the queue in order exactly when no live entry stands behind its place. */
  lemma RequeueOrder(s: Snapshot, attemptId: AttemptId, now: Time)
    requires LiveInOrder(s.entries) && forall k :: 0 <= k < |s.entries| ==> s.entries[k].queuedAt < now
    requires IndexOf(s.entries, attemptId) < |s.entries| && !Live(s.entries[IndexOf(s.entries, attemptId)])
    ensures Decide(s, Enqueue(attemptId, now)).Changes?
    ensures LiveInOrder(Decide(s, Enqueue(attemptId, now)).snapshot.entries)
            <==> NoneLiveBehind(s.entries, IndexOf(s.entries, attemptId))
  {
    InTurnByTheClock(s.entries, attemptId, now);
    EnqueueOrder(s, attemptId, now);
  }

  // ------------------------------------------------------------------ whole runs

  predicate StepInTurn(w: World, step: Step) {
    (step.Run? || step.CrashIn?) && w.process.Some? ==> InTurn(w.process.value.snapshot.entries, step.command)
  }

  /** Every enqueue of the run is in turn when it comes. */
  predicate RunInTurn(w: World, steps: seq<Step>) {
    steps == [] || (RunInTurn(w, steps[..|steps| - 1]) && StepInTurn(From(w, steps[..|steps| - 1]), steps[|steps| - 1]))
  }

  predicate WorldInOrder(w: World) {
    LiveInOrder(LoadedSnapshot(w.disk).entries)
  }

  /** What one command, cut anywhere, can leave as the list of entries. */
  lemma CutEntries(w: World, c: Command, n: nat, torn: Option<bool>)
    requires w.process.Some? && MemoryOk(w.disk, w.process.value)
    ensures var s, after := w.process.value.snapshot, LoadedSnapshot(CutAt(w.disk, Perform(w.disk, w.process.value, c), n, torn)).entries;
            after == s.entries || after == [] || (Decide(s, c).Changes? && after == Decide(s, c).snapshot.entries)
    ensures var s, after := w.process.value.snapshot, LoadedSnapshot(Finished(w.disk, Perform(w.disk, w.process.value, c))).entries;
            after == s.entries || after == [] || (Decide(s, c).Changes? && after == Decide(s, c).snapshot.entries)
  {
  }

  lemma BootEntries(d: Disk, n: nat, torn: Option<bool>)
    ensures var s, after := LoadedSnapshot(d), LoadedSnapshot(CutAt(d, Startup(d), n, torn)).entries;
            after == s.entries || (s.lease.Some? && after == Unleased(s).entries)
    ensures var s, after := LoadedSnapshot(d), LoadedSnapshot(Finished(d, Startup(d))).entries;
            after == s.entries || (s.lease.Some? && after == Unleased(s).entries)
  {
    var e := Startup(d);
    var done := Min(n, |e.writes|);
    if done > 0 { BootWrites(d, done - 1); }
    if e.writes != [] { BootWrites(d, |e.writes| - 1); }
  }

  lemma BootWrites(d: Disk, i: nat)
    requires i < |Startup(d).writes|
    ensures var s, after := LoadedSnapshot(d), LoadedSnapshot(Startup(d).writes[i]).entries;
            after == s.entries || (s.lease.Some? && after == Unleased(s).entries)
  {
  }

  lemma BootKeepsOrder(d: Disk, n: nat, torn: Option<bool>)
    requires LiveInOrder(LoadedSnapshot(d).entries)
    ensures LiveInOrder(LoadedSnapshot(CutAt(d, Startup(d), n, torn)).entries)
    ensures LiveInOrder(LoadedSnapshot(Finished(d, Startup(d))).entries)
  {
    BootEntries(d, n, torn);
    var s := LoadedSnapshot(d);
    if s.lease.Some? {
      var i := IndexOf(s.entries, s.lease.value.attemptId);
      if i < |s.entries| && !Terminal(s.entries[i].state) { WithStateOrder(s.entries, i, Queued); }
    }
  }

  lemma CommandKeepsOrder(w: World, c: Command, n: nat, torn: Option<bool>)
    requires WorldOk(w) && WorldInOrder(w) && w.process.Some? && InTurn(w.process.value.snapshot.entries, c)
    ensures LiveInOrder(LoadedSnapshot(CutAt(w.disk, Perform(w.disk, w.process.value, c), n, torn)).entries)
    ensures LiveInOrder(LoadedSnapshot(Finished(w.disk, Perform(w.disk, w.process.value, c))).entries)
  {
    CutEntries(w, c, n, torn);
    if Decide(w.process.value.snapshot, c).Changes? { OrderKeptExactly(w.process.value.snapshot, c); }
  }

  lemma StepKeepsOrder(w: World, step: Step)
    requires WorldOk(w) && WorldInOrder(w) && StepInTurn(w, step)
    ensures WorldInOrder(Apply(w, step))
  {
    match step
    case Boot => BootKeepsOrder(w.disk, 0, None);
    case CrashInBoot(n, torn) => BootKeepsOrder(w.disk, n, torn);
    case Run(c) => if w.process.Some? { CommandKeepsOrder(w, c, 0, None); }
    case CrashIn(c, n, torn) => if w.process.Some? { CommandKeepsOrder(w, c, n, torn); }
  }

  lemma {:induction false} RunKeepsOrder(w: World, steps: seq<Step>)
    requires WorldOk(w) && WorldInOrder(w) && RunInTurn(w, steps)
    ensures WorldOk(From(w, steps)) && WorldInOrder(From(w, steps))
  {
    if steps != [] {
      var init, last := steps[..|steps| - 1], steps[|steps| - 1];
      RunKeepsOrder(w, init);
      StepKeepsOrder(From(w, init), last);
      StepKeepsWorld(From(w, init), last);
    }
  }

  lemma OrderPromotesLongest(s: Snapshot)
    requires LiveInOrder(s.entries)
    ensures PromotesLongest(s)
  {
  }

  /** Over all runs with crashes and restarts: while every enqueue comes in turn, the longest-waiting entry is promoted. */
  lemma RunsPromoteLongest(steps: seq<Step>)
    requires RunInTurn(World(BLANK, None, {}), steps)
    ensures After(steps).process.Some? ==> PromotesLongest(After(steps).process.value.snapshot)
  {
    RunsKeepQueue([]);
    RunKeepsOrder(World(BLANK, None, {}), steps);
    if After(steps).process.Some? { OrderPromotesLongest(After(steps).process.value.snapshot); }
  }

  // ------------------------------------------------------------------ out of order means a wrong promotion is near

  predicate NoEnqueue(steps: seq<Step>) {
    forall k :: 0 <= k < |steps| ==> (steps[k].Run? || steps[k].CrashIn?) ==> !steps[k].command.Enqueue?
  }

  lemma {:induction false} NoEnqueueInTurn(w: World, steps: seq<Step>)
    requires NoEnqueue(steps)
    ensures RunInTurn(w, steps)
  {
    if steps != [] { NoEnqueueInTurn(w, steps[..|steps| - 1]); }
  }

  lemma {:induction false} FromConcat(w: World, a: seq<Step>, b: seq<Step>)
    ensures From(w, a + b) == From(From(w, a), b)
  {
    if b == [] {
      assert a + b == a;
    } else {
      assert (a + b)[..|a + b| - 1] == a + b[..|b| - 1];
      FromConcat(w, a, b[..|b| - 1]);
    }
  }

  /** A process that is up, with nothing leased. */
  ghost predicate Idle(w: World) {
    WorldOk(w) && w.process.Some? && w.process.value.snapshot.lease.None?
  }

  function EntriesOf(w: World): seq<Entry>
    requires w.process.Some?
  {
    w.process.value.snapshot.entries
  }

  lemma RunCommand(w: World, c: Command)
    requires WorldOk(w) && w.process.Some? && !c.Acquire? && Decide(w.process.value.snapshot, c).Changes?
    ensures var w', s' := From(w, [Run(c)]), Decide(w.process.value.snapshot, c).snapshot;
            WorldOk(w') && w'.process.Some? && EntriesOf(w') == s'.entries && w'.process.value.snapshot.lease == s'.lease
  {
    assert [Run(c)][..0] == [];
    assert From(w, [Run(c)]) == Apply(w, Run(c));
    StepKeepsWorld(w, Run(c));
  }

  /** The entries are the same but for states, and the same ones are live. */
  ghost predicate SameLive(a: seq<Entry>, b: seq<Entry>) {
    && |a| == |b|
    && forall k :: 0 <= k < |a| ==> a[k].queuedAt == b[k].queuedAt && (Live(a[k]) <==> Live(b[k]))
  }

  lemma HandBack(w: World) returns (steps: seq<Step>)
    requires WorldOk(w) && w.process.Some?
    ensures NoEnqueue(steps) && Idle(From(w, steps)) && SameLive(EntriesOf(w), EntriesOf(From(w, steps)))
  {
    var s := w.process.value.snapshot;
    if s.lease.None? {
      steps := [];
    } else {
      var i := IndexOf(s.entries, s.lease.value.attemptId);
      assert s.entries[i].state.Active?;
      steps := [Run(Release(s.lease.value.leaseId, Requeue))];
      RunCommand(w, Release(s.lease.value.leaseId, Requeue));
    }
  }

  lemma IndexOfEntry(s: Snapshot, k: nat)
    requires SnapshotOk(s) && k < |s.entries|
    ensures IndexOf(s.entries, s.entries[k].attemptId) == k
  {
  }

  lemma CancelOne(w: World, k: nat) returns (steps: seq<Step>)
    requires Idle(w) && k < |EntriesOf(w)|
    ensures NoEnqueue(steps) && Idle(From(w, steps))
    ensures EntriesOf(From(w, steps)) == if Live(EntriesOf(w)[k]) then WithState(EntriesOf(w), k, Cancelled) else EntriesOf(w)
  {
    if Live(EntriesOf(w)[k]) {
      var c := Cancel(EntriesOf(w)[k].attemptId);
      IndexOfEntry(w.process.value.snapshot, k);
      steps := [Run(c)];
      RunCommand(w, c);
    } else {
      steps := [];
    }
  }

  ghost predicate ClearedBefore(a: seq<Entry>, b: seq<Entry>, i: nat) {
    |a| == |b| && i <= |a| && (forall k :: 0 <= k < i ==> !Live(b[k])) && forall k :: i <= k < |a| ==> b[k] == a[k]
  }

  lemma {:induction false} CancelBefore(w: World, i: nat) returns (steps: seq<Step>)
    requires Idle(w) && i <= |EntriesOf(w)|
    ensures NoEnqueue(steps) && Idle(From(w, steps)) && ClearedBefore(EntriesOf(w), EntriesOf(From(w, steps)), i)
  {
    if i == 0 {
      steps := [];
    } else {
      var first := CancelBefore(w, i - 1);
      var second := CancelOne(From(w, first), i - 1);
      FromConcat(w, first, second);
      steps := first + second;
    }
  }

  lemma ResumeOne(w: World, k: nat) returns (steps: seq<Step>)
    requires Idle(w) && k < |EntriesOf(w)| && Live(EntriesOf(w)[k])
    ensures NoEnqueue(steps) && Idle(From(w, steps)) && EntriesOf(From(w, steps)) == WithState(EntriesOf(w), k, Queued)
  {
    assert !EntriesOf(w)[k].state.Active?;
    if EntriesOf(w)[k].state.Paused? {
      var c := Resume(EntriesOf(w)[k].attemptId);
      IndexOfEntry(w.process.value.snapshot, k);
      steps := [Run(c)];
      RunCommand(w, c);
    } else {
      steps := [];
    }
  }

  /** An entry queued later stands in front: hand the lease back, cancel what is before it, resume both. */
  lemma WrongPromotion(w: World, i: nat, j: nat) returns (steps: seq<Step>)
    requires WorldOk(w) && w.process.Some? && i < j < |EntriesOf(w)|
    requires Live(EntriesOf(w)[i]) && Live(EntriesOf(w)[j]) && EntriesOf(w)[i].queuedAt > EntriesOf(w)[j].queuedAt
    ensures NoEnqueue(steps) && From(w, steps).process.Some? && !PromotesLongest(From(w, steps).process.value.snapshot)
  {
    var a := HandBack(w);
    var w1 := From(w, a);
    var b := CancelBefore(w1, i);
    var w2 := From(w1, b);
    var c := ResumeOne(w2, i);
    var w3 := From(w2, c);
    var d := ResumeOne(w3, j);
    FromConcat(w, a, b);
    FromConcat(w, a + b, c);
    FromConcat(w, a + b + c, d);
    steps := a + b + c + d;
    OutOfTurn(From(w3, d).process.value.snapshot, i, j);
  }

  lemma OutOfTurn(s: Snapshot, i: nat, j: nat)
    requires s.lease.None? && i < j < |s.entries| && s.entries[i].state.Queued? && s.entries[j].state.Queued?
    requires s.entries[i].queuedAt > s.entries[j].queuedAt && forall k :: 0 <= k < i ==> !Live(s.entries[k])
    ensures !PromotesLongest(s)
  {
    assert FirstQueued(s.entries) == i;
  }

  /** From here on, without a further enqueue, every promotion is of the longest-waiting entry. */
  ghost predicate StaysFair(w: World) {
    forall steps :: NoEnqueue(steps) && From(w, steps).process.Some? ==> PromotesLongest(From(w, steps).process.value.snapshot)
  }

  /** That is so exactly when the live entries stand in the order they were queued in. */
  lemma FairExactlyInOrder(w: World)
    requires WorldOk(w) && w.process.Some?
    ensures StaysFair(w) <==> LiveInOrder(EntriesOf(w))
  {
    if LiveInOrder(EntriesOf(w)) {
      forall steps | NoEnqueue(steps) && From(w, steps).process.Some?
        ensures PromotesLongest(From(w, steps).process.value.snapshot)
      {
        NoEnqueueInTurn(w, steps);
        RunKeepsOrder(w, steps);
        OrderPromotesLongest(From(w, steps).process.value.snapshot);
      }
    } else {
      var i, j :| 0 <= i < j < |EntriesOf(w)| && Live(EntriesOf(w)[i]) && Live(EntriesOf(w)[j])
                  && EntriesOf(w)[i].queuedAt > EntriesOf(w)[j].queuedAt;
      var steps := WrongPromotion(w, i, j);
    }
  }

  /**
   From a reachable queue in order, an enqueue leaves the scheduler fair from there on exactly when it
   is in turn: the condition a caller can check before the call.
   */
  lemma EnqueueStaysFair(w: World, attemptId: AttemptId, now: Time)
    requires WorldOk(w) && w.process.Some? && LiveInOrder(EntriesOf(w))
    requires Decide(w.process.value.snapshot, Enqueue(attemptId, now)).Changes?
    ensures StaysFair(From(w, [Run(Enqueue(attemptId, now))])) <==> InTurn(EntriesOf(w), Enqueue(attemptId, now))
  {
    RunCommand(w, Enqueue(attemptId, now));
    EnqueueOrder(w.process.value.snapshot, attemptId, now);
    FairExactlyInOrder(From(w, [Run(Enqueue(attemptId, now))]));
  }

  /** Attempt 1 is queued at 0 and completed, attempt 2 is queued at 5, and attempt 1 again at 9. */
  function OvertakingRun(): seq<Step> {
    [Boot, Run(Enqueue(1, 0)), Run(Acquire(7)), Run(Release(7, Completed)), Run(Enqueue(2, 5)), Run(Enqueue(1, 9))]
  }

  /** The entries of a process that is up, and its lease. */
  ghost predicate Holds(w: World, entries: seq<Entry>, lease: Option<Lease>) {
    && w.process.Some? && w.process.value.snapshot.entries == entries && w.process.value.snapshot.lease == lease
  }

  lemma CommandHolds(w: World, c: Command, entries: seq<Entry>, lease: Option<Lease>)
    requires w.process.Some? && Fresh(w, c) && Decide(w.process.value.snapshot, c).Changes?
    requires Decide(w.process.value.snapshot, c).snapshot.entries == entries && Decide(w.process.value.snapshot, c).snapshot.lease == lease
    ensures Holds(Apply(w, Run(c)), entries, lease) && Apply(w, Run(c)).used == Minted(w, c)
  {
  }

  lemma BootHolds()
    ensures Holds(Apply(World(BLANK, None, {}), Boot), [], None) && Apply(World(BLANK, None, {}), Boot).used == {}
  {
    assert Items(NO_LOG) == [] && AtLeast([], 0) == [];
  }

  lemma FirstAttempt(w: World) returns (w': World)
    requires Holds(w, [], None) && w.used == {}
    ensures w' == Apply(Apply(Apply(w, Run(Enqueue(1, 0))), Run(Acquire(7))), Run(Release(7, Completed)))
    ensures Holds(w', [Entry(1, Done, 0)], None)
  {
    CommandHolds(w, Enqueue(1, 0), [Entry(1, Queued, 0)], None);
    var w1 := Apply(w, Run(Enqueue(1, 0)));
    CommandHolds(w1, Acquire(7), [Entry(1, Active, 0)], Some(Lease(7, 1)));
    var w2 := Apply(w1, Run(Acquire(7)));
    CommandHolds(w2, Release(7, Completed), [Entry(1, Done, 0)], None);
    w' := Apply(w2, Run(Release(7, Completed)));
  }

  lemma SecondAttempt(w: World) returns (w': World)
    requires Holds(w, [Entry(1, Done, 0)], None)
    ensures w' == Apply(Apply(w, Run(Enqueue(2, 5))), Run(Enqueue(1, 9)))
    ensures Holds(w', [Entry(1, Queued, 9), Entry(2, Queued, 5)], None)
  {
    assert IndexOf([Entry(1, Done, 0)], 2) == 1;
    CommandHolds(w, Enqueue(2, 5), [Entry(1, Done, 0), Entry(2, Queued, 5)], None);
    var w1 := Apply(w, Run(Enqueue(2, 5)));
    assert IndexOf([Entry(1, Done, 0), Entry(2, Queued, 5)], 1) == 0;
    CommandHolds(w1, Enqueue(1, 9), [Entry(1, Queued, 9), Entry(2, Queued, 5)], None);
    w' := Apply(w1, Run(Enqueue(1, 9)));
  }

  /** A run from the blank disk after which attempt 1 is promoted although attempt 2 has waited since 5. */
  lemma RequeuedAttemptOvertakes()
    ensures var w := After(OvertakingRun());
            && Holds(w, [Entry(1, Queued, 9), Entry(2, Queued, 5)], None)
            && FirstQueued(EntriesOf(w)) == 0 && !PromotesLongest(w.process.value.snapshot)
  {
    var start := World(BLANK, None, {});
    SixSteps(start, OvertakingRun());
    BootHolds();
    var w3 := FirstAttempt(Apply(start, Boot));
    var w5 := SecondAttempt(w3);
    assert EntriesOf(w5)[1].state.Queued?;
  }

  lemma SixSteps(w: World, t: seq<Step>)
    requires |t| == 6
    ensures From(w, t) == Apply(Apply(Apply(Apply(Apply(Apply(w, t[0]), t[1]), t[2]), t[3]), t[4]), t[5])
  {
    assert t[..6] == t && t[..0] == [];
    forall k | 0 <= k < 6 ensures From(w, t[..k + 1]) == Apply(From(w, t[..k]), t[k]) {
      assert t[..k + 1][..k] == t[..k];
    }
    assert From(w, t[..2]) == Apply(From(w, t[..1]), t[1]);
    assert From(w, t[..4]) == Apply(From(w, t[..3]), t[3]);
  }
}
