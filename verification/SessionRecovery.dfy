/**
 One session's record and event log through any number of crashes and restarts. The record is replaced
 atomically and only at checkpoints, the log grows by one line per event, and a crash may come between
 any two of these writes, also while recovery itself is at work.

 The daemon numbers a session's events from 0 without gaps, so an event's sequence is the number of
 events counted before it.
 */
module SessionRecovery {
  import opened Basics
  import opened LineLog
  import opened EventLogs

  const MAX_LINES := 5000

  datatype Status = Starting | Running | Ended | FailedRun | CancelledRun | InterruptedRun
  datatype Reason = ProviderCompleted | ProviderError | CancelledByClient | LaunchFailed | DaemonRestart

  datatype Record = Record(
    status: Status, reason: Option<Reason>, completedAt: Option<int>, accepted: bool, count: nat, truncated: bool, scope: nat)

  predicate Open(status: Status) {
    status == Starting || status == Running
  }

  datatype Disk = Disk(record: Record, log: Log<Event>)

  datatype Memory = Memory(record: Record, lines: nat)

  /** What the daemon is doing with the session. */
  datatype Process =
    | Down
    | Loaded(m: Memory, terminal: Option<Kind>)
    | Closing(m: Memory)
    | Up(m: Memory)

  datatype Session = Session(disk: Disk, process: Process)

  // ------------------------------------------------------------------ steps

  datatype Step =
    | Crash
    | Load
    | Recover(now: int)
    | RecoverTorn(onlyNewlineMissing: bool)
    | Close
    | Append(kind: Kind)
    | AppendTorn(kind: Kind, onlyNewlineMissing: bool)
    | MarkAccepted
    | Finalize(status: Status, reason: Reason, now: int)
    | SetScope(scope: nat)

  /** `TERMINAL_LOG_OUTCOME` */
  function OutcomeOf(kind: Kind): (Status, Reason)
    requires Terminal(kind)
  {
    match kind
    case Completed => (Ended, ProviderCompleted)
    case Failed => (FailedRun, ProviderError)
    case Cancelled => (CancelledRun, CancelledByClient)
    case Interrupted => (InterruptedRun, DaemonRestart)
  }

  function AsLoaded(d: Disk): Memory {
    Memory(d.record.(count := Max(d.record.count, |d.log.lines|)), |d.log.lines|)
  }

  /** Memory changes its record and writes it. */
  function Rewritten(s: Session, m: Memory, record: Record): Session {
    Session(s.disk.(record := record), Up(m.(record := record)))
  }

  function ClosedOut(r: Record, kind: Kind, now: int): Record
    requires Terminal(kind)
  {
    var out := OutcomeOf(kind);
    r.(status := out.0, reason := Some(out.1), completedAt := if r.completedAt.Some? then r.completedAt else Some(now))
  }

  function InterruptedRecord(m: Memory, now: int): Record {
    var sequence := Max(m.record.count, m.lines);
    m.record.(count := sequence + 1, status := InterruptedRun, reason := Some(DaemonRestart), completedAt := Some(now))
  }

  /** `#recoverNonTerminalSessions`, up to its first write. */
  function Recovering(s: Session, m: Memory, terminal: Option<Kind>, now: int): Session
    requires terminal.Some? ==> Terminal(terminal.value)
  {
    if !Open(m.record.status) then s.(process := Up(m))
    else if terminal.Some? then Rewritten(s, m, ClosedOut(m.record, terminal.value, now))
    else
      var sequence := Max(m.record.count, m.lines);
      var closed := InterruptedRecord(m, now);
      if m.lines < MAX_LINES then
        Session(s.disk.(log := Appended(s.disk.log, Event(sequence, Interrupted))), Closing(Memory(closed, m.lines + 1)))
      else s.(process := Closing(Memory(closed, m.lines)))
  }

  /** `appendEvent` */
  function Appending(s: Session, m: Memory, kind: Kind): Session {
    var counted := m.record.(count := m.record.count + 1);
    if m.lines < MAX_LINES then
      Session(s.disk.(log := Appended(s.disk.log, Event(m.record.count, kind))), Up(Memory(counted, m.lines + 1)))
    else Rewritten(s, m, counted.(truncated := true))
  }

  function Torn(s: Session, e: Event, onlyNewlineMissing: bool): Session {
    Session(s.disk.(log := TornAppend(s.disk.log, e, onlyNewlineMissing)), Down)
  }

  function Next(s: Session, step: Step): Session {
    match step
    case Crash => s.(process := Down)
    case Load =>
      if s.process != Down then s else
        var d := s.disk.(log := Repaired(s.disk.log));
        Session(d, Loaded(AsLoaded(d), LastTerminal(d.log.lines)))
    case Recover(now) =>
      if !s.process.Loaded? || (s.process.terminal.Some? && !Terminal(s.process.terminal.value)) then s
      else Recovering(s, s.process.m, s.process.terminal, now)
    case RecoverTorn(cut) =>
      if !s.process.Loaded? || !Open(s.process.m.record.status) || s.process.terminal.Some? || s.process.m.lines >= MAX_LINES then s
      else Torn(s, Event(Max(s.process.m.record.count, s.process.m.lines), Interrupted), cut)
    case Close => if s.process.Closing? then Rewritten(s, s.process.m, s.process.m.record) else s
    case Append(kind) => if s.process.Up? then Appending(s, s.process.m, kind) else s
    case AppendTorn(kind, cut) =>
      if !s.process.Up? || s.process.m.lines >= MAX_LINES then s else Torn(s, Event(s.process.m.record.count, kind), cut)
    case MarkAccepted =>
      if !s.process.Up? || s.process.m.record.accepted then s
      else Rewritten(s, s.process.m, s.process.m.record.(accepted := true))
    case Finalize(status, reason, now) =>
      if !s.process.Up? then s
      else Rewritten(s, s.process.m, s.process.m.record.(status := status, reason := Some(reason), completedAt := Some(now)))
    case SetScope(scope) =>
      if !s.process.Up? then s else Rewritten(s, s.process.m, s.process.m.record.(scope := scope))
  }

  function After(s: Session, steps: seq<Step>): Session {
    if steps == [] then s else Next(After(s, steps[..|steps| - 1]), steps[|steps| - 1])
  }

  /** `create`: the record is on disk, the log is empty. */
  function Created(scope: nat): Session {
    var record := Record(Starting, None, None, false, 0, false, scope);
    Session(Disk(record, Log([], Terminated)), Up(Memory(record, 0)))
  }

  // ------------------------------------------------------------------ the invariant

  /** On disk the log is dense and the record never counts more than the log, unless the log is full. */
  ghost predicate DiskOk(d: Disk) {
    && DenseLog(d.log) && |Surviving(d.log)| <= MAX_LINES
    && (d.record.count <= |Surviving(d.log)| || |d.log.lines| == MAX_LINES)
  }

  /** Memory is what loading the disk again would give. */
  ghost predicate Fresh(d: Disk, m: Memory) {
    d.log.tail == Terminated && m == AsLoaded(d)
  }

  /** The interrupted record is decided but not yet written. */
  ghost predicate ClosingOk(d: Disk, m: Memory) {
    && d.log.tail == Terminated && m.lines == |d.log.lines|
    && Open(d.record.status) && m.record.status == InterruptedRun && m.record.reason == Some(DaemonRestart)
    && m.record.accepted == d.record.accepted
    && (if LastTerminal(d.log.lines).None?
        then |d.log.lines| == MAX_LINES && m.record.count == Max(d.record.count, MAX_LINES) + 1
        else LastTerminal(d.log.lines) == Some(Interrupted) && m.record.count == |d.log.lines| && d.record.count < |d.log.lines|)
  }

  ghost predicate Inv(s: Session) {
    && DiskOk(s.disk)
    && match s.process
       case Down => true
       case Loaded(m, terminal) => Fresh(s.disk, m) && terminal == LastTerminal(s.disk.log.lines)
       case Closing(m) => ClosingOk(s.disk, m)
       case Up(m) => Fresh(s.disk, m)
  }

  lemma {:induction false} LastTerminalIsTerminal(lines: seq<Line<Event>>)
    ensures LastTerminal(lines).Some? ==> Terminal(LastTerminal(lines).value)
  {
    if lines != [] { LastTerminalIsTerminal(lines[..|lines| - 1]); }
  }

  lemma LastTerminalOfOneMore(lines: seq<Line<Event>>, e: Event)
    ensures LastTerminal(lines + [Whole(e)]) == if Terminal(e.kind) then Some(e.kind) else LastTerminal(lines)
  {
    assert (lines + [Whole(e)])[..|lines|] == lines;
  }

  lemma LoadKeeps(s: Session)
    requires Inv(s) && s.process == Down
    ensures Inv(Next(s, Load)) && Next(s, Load).disk.log == Log(Surviving(s.disk.log), Terminated)
  {
    RepairOfDense(s.disk.log);
  }

  lemma AppendedDense(log: Log<Event>, e: Event)
    requires Dense(log.lines) && log.tail == Terminated && e.sequence == |log.lines|
    ensures Appended(log, e) == Log(log.lines + [Whole(e)], Terminated) && Dense(log.lines + [Whole(e)])
  {
  }

  lemma RecoverKeeps(s: Session, now: int)
    requires Inv(s) && s.process.Loaded?
    ensures Inv(Next(s, Recover(now)))
  {
    LastTerminalIsTerminal(s.disk.log.lines);
    var m := s.process.m;
    if Open(m.record.status) && s.process.terminal.None? && m.lines < MAX_LINES {
      var e := Event(Max(m.record.count, m.lines), Interrupted);
      AppendedDense(s.disk.log, e);
      LastTerminalOfOneMore(s.disk.log.lines, e);
    }
  }

  lemma AppendKeeps(s: Session, kind: Kind)
    requires Inv(s) && s.process.Up?
    ensures Inv(Next(s, Append(kind)))
  {
    var m := s.process.m;
    if m.lines < MAX_LINES { AppendedDense(s.disk.log, Event(m.record.count, kind)); }
  }

  lemma StepKeeps(s: Session, step: Step)
    requires Inv(s)
    ensures Inv(Next(s, step))
  {
    match step
    case Load => if s.process == Down { LoadKeeps(s); }
    case Recover(now) => if s.process.Loaded? { RecoverKeeps(s, now); }
    case Append(kind) => if s.process.Up? { AppendKeeps(s, kind); }
    case _ =>
  }

  lemma {:induction false} InvAlways(scope: nat, steps: seq<Step>)
    ensures Inv(After(Created(scope), steps))
  {
    if steps != [] {
      InvAlways(scope, steps[..|steps| - 1]);
      StepKeeps(After(Created(scope), steps[..|steps| - 1]), steps[|steps| - 1]);
    }
  }

  // ------------------------------------------------------------------ what every run keeps

  /** The events a restart would find. */
  function Known(d: Disk): nat {
    Max(d.record.count, |Surviving(d.log)|)
  }

  /**
   At every moment of every run: memory, when there is one, is exactly what a fresh load of the disk
   gives, and the log's sequences rise, so an appended line's sequence is above every earlier one.
   */
  lemma RunsStayConsistent(scope: nat, steps: seq<Step>)
    ensures var s := After(Created(scope), steps);
            && Dense(s.disk.log.lines) && Rising(s.disk.log.lines) && |s.disk.log.lines| <= MAX_LINES
            && (s.process.Up? ==> s.disk.log.tail == Terminated && s.process.m == AsLoaded(s.disk))
  {
    InvAlways(scope, steps);
    DenseIsRising(After(Created(scope), steps).disk.log.lines);
  }

  /** The line a recovery appends carries a sequence above every line before it. */
  lemma InterruptedLineIsLast(scope: nat, steps: seq<Step>, now: int, i: nat)
    requires var s := After(Created(scope), steps); s.process.Loaded? && i < |s.disk.log.lines|
    ensures var s := After(Created(scope), steps);
            var t := Next(s, Recover(now));
            |t.disk.log.lines| > |s.disk.log.lines| ==>
              && t.disk.log.lines[..|s.disk.log.lines|] == s.disk.log.lines && |t.disk.log.lines| == |s.disk.log.lines| + 1
              && t.disk.log.lines[|s.disk.log.lines|].Whole? && s.disk.log.lines[i].Whole?
              && t.disk.log.lines[|s.disk.log.lines|].item.kind == Interrupted
              && s.disk.log.lines[i].item.sequence < t.disk.log.lines[|s.disk.log.lines|].item.sequence
  {
    InvAlways(scope, steps);
    var s := After(Created(scope), steps);
    RecoverKeeps(s, now);
    LastTerminalIsTerminal(s.disk.log.lines);
  }

  /**
   Nothing is lost count of: an event adds exactly one to what a restart would find, also beyond the
   full log; an event a crash cut off adds one or nothing; no crash, load or other write changes it,
   and closing out as interrupted adds the one interrupted event.
   */
  lemma EventsAreCounted(s: Session, step: Step)
    requires Inv(s)
    ensures var before, after := Known(s.disk), Known(Next(s, step).disk);
            match step
            case Append(_) => after == before + (if s.process.Up? then 1 else 0)
            case AppendTorn(_, _) => before <= after <= before + 1
            case RecoverTorn(_) => before <= after <= before + 1
            case Recover(_) => before <= after <= before + 1
            case Close => before <= after <= before + 1
            case _ => after == before
  {
    match step
    case Load => if s.process == Down { LoadKeeps(s); }
    case Append(kind) => if s.process.Up? { AppendKeeps(s, kind); }
    case Recover(now) => LastTerminalIsTerminal(s.disk.log.lines);
    case _ =>
  }

  /** Accepted work stays accepted, on disk and in memory, whatever happens. */
  lemma AcceptedStays(s: Session, step: Step)
    requires Inv(s) && s.disk.record.accepted
    ensures Next(s, step).disk.record.accepted
    ensures Next(s, step).process.Up? ==> Next(s, step).process.m.record.accepted
  {
    StepKeeps(s, step);
    if step.Load? && s.process == Down { LoadKeeps(s); }
    if step.Recover? { LastTerminalIsTerminal(s.disk.log.lines); }
  }

  lemma {:induction false} AcceptedForever(scope: nat, earlier: seq<Step>, later: seq<Step>)
    requires After(Created(scope), earlier).disk.record.accepted
    ensures After(Created(scope), earlier + later).disk.record.accepted
  {
    if later == [] {
      assert earlier + later == earlier;
    } else {
      var init := later[..|later| - 1];
      AcceptedForever(scope, earlier, init);
      assert (earlier + later)[..|earlier + later| - 1] == earlier + init;
      InvAlways(scope, earlier + init);
      AcceptedStays(After(Created(scope), earlier + init), later[|later| - 1]);
    }
  }

  // ------------------------------------------------------------------ recovery

  datatype Outcome = Outcome(status: Status, reason: Option<Reason>, count: nat)

  /**
   What recovery owes a session, said of the disk alone: a closed record stands, an open one takes the
   log's last terminal event, and failing that is interrupted, which counts as one more event.
   */
  function Owed(d: Disk): Outcome {
    var last := LastTerminal(Surviving(d.log));
    LastTerminalIsTerminal(Surviving(d.log));
    if !Open(d.record.status) then Outcome(d.record.status, d.record.reason, Known(d))
    else if last.Some? then Outcome(OutcomeOf(last.value).0, Some(OutcomeOf(last.value).1), Known(d))
    else Outcome(InterruptedRun, Some(DaemonRestart), Known(d) + 1)
  }

  predicate IsRecovery(step: Step) {
    step.Crash? || step.Load? || step.Recover? || step.RecoverTorn? || step.Close?
  }

  lemma LoadOwesSame(s: Session)
    requires Inv(s) && s.process == Down
    ensures Owed(Next(s, Load).disk) == Owed(s.disk)
  {
    LoadKeeps(s);
  }

  lemma RecoverOwesSame(s: Session, now: int)
    requires Inv(s) && s.process.Loaded?
    ensures Owed(Next(s, Recover(now)).disk) == Owed(s.disk)
  {
    LastTerminalIsTerminal(s.disk.log.lines);
    var m := s.process.m;
    if Open(m.record.status) && s.process.terminal.None? && m.lines < MAX_LINES {
      LastTerminalOfOneMore(s.disk.log.lines, Event(Max(m.record.count, m.lines), Interrupted));
    }
  }

  lemma TornOwesSame(s: Session, cut: bool)
    requires Inv(s) && s.process.Loaded?
    ensures Owed(Next(s, RecoverTorn(cut)).disk) == Owed(s.disk)
  {
    var m := s.process.m;
    LastTerminalOfOneMore(s.disk.log.lines, Event(Max(m.record.count, m.lines), Interrupted));
  }

  /** No recovery step, and no crash of one, changes what is owed. */
  lemma RecoveryOwesSame(s: Session, step: Step)
    requires Inv(s) && IsRecovery(step)
    ensures Owed(Next(s, step).disk) == Owed(s.disk)
  {
    match step
    case Load => if s.process == Down { LoadOwesSame(s); }
    case Recover(now) => if s.process.Loaded? { RecoverOwesSame(s, now); }
    case RecoverTorn(cut) => if s.process.Loaded? { TornOwesSame(s, cut); }
    case _ =>
  }

  /** Once recovery lets a session go, it is closed. */
  ghost predicate Settled(s: Session) {
    s.process.Up? ==> !Open(s.process.m.record.status)
  }

  lemma RecoverySettles(s: Session, step: Step)
    requires Inv(s) && IsRecovery(step) && Settled(s)
    ensures Settled(Next(s, step))
  {
    LastTerminalIsTerminal(s.disk.log.lines);
  }

  lemma {:induction false} RecoveryRuns(s: Session, steps: seq<Step>)
    requires Inv(s) && s.process == Down && forall i :: 0 <= i < |steps| ==> IsRecovery(steps[i])
    ensures Inv(After(s, steps)) && Owed(After(s, steps).disk) == Owed(s.disk) && Settled(After(s, steps))
  {
    if steps != [] {
      var init, last := steps[..|steps| - 1], steps[|steps| - 1];
      RecoveryRuns(s, init);
      StepKeeps(After(s, init), last);
      RecoveryOwesSame(After(s, init), last);
      RecoverySettles(After(s, init), last);
    }
  }

  /**
   However often recovery itself crashes and starts over: when it is through, the record is closed,
   in memory with exactly the status, reason and event count owed to the disk the first crash left,
   and on disk with that status and reason.
   */
  lemma RecoveryReachesOwed(scope: nat, steps: seq<Step>, recovery: seq<Step>)
    requires After(Created(scope), steps).process == Down
    requires forall i :: 0 <= i < |recovery| ==> IsRecovery(recovery[i])
    ensures var crashed := After(Created(scope), steps);
            var s := After(crashed, recovery);
            s.process.Up? ==>
              && !Open(s.disk.record.status)
              && Outcome(s.process.m.record.status, s.process.m.record.reason, s.process.m.record.count) == Owed(crashed.disk)
              && s.disk.record.status == Owed(crashed.disk).status && s.disk.record.reason == Owed(crashed.disk).reason
              && s.disk.record.accepted == crashed.disk.record.accepted
  {
    InvAlways(scope, steps);
    RecoveryRuns(After(Created(scope), steps), recovery);
    RecoveryKeepsAccepted(After(Created(scope), steps), recovery);
  }

  lemma {:induction false} RecoveryKeepsAccepted(s: Session, steps: seq<Step>)
    requires Inv(s) && s.process == Down && forall i :: 0 <= i < |steps| ==> IsRecovery(steps[i])
    ensures After(s, steps).disk.record.accepted == s.disk.record.accepted
  {
    if steps != [] {
      var init := steps[..|steps| - 1];
      RecoveryKeepsAccepted(s, init);
      RecoveryRuns(s, init);
      LastTerminalIsTerminal(After(s, init).disk.log.lines);
    }
  }

  /** Three steps without a crash are enough: load, recover, close. */
  lemma RecoveryFinishes(s: Session, now: int)
    requires Inv(s) && s.process == Down
    ensures Next(Next(Next(s, Load), Recover(now)), Close).process.Up?
  {
    LoadKeeps(s);
    LastTerminalIsTerminal(Next(s, Load).disk.log.lines);
  }

  // ------------------------------------------------------------------ outcomes, spelled out

  /** Line i is the last terminal event of the log. */
  ghost predicate LastTerminalAt(lines: seq<Line<Event>>, i: nat, kind: Kind) {
    && i < |lines| && lines[i].Whole? && lines[i].item.kind == kind && kind != Ordinary
    && forall j :: i < j < |lines| && lines[j].Whole? ==> lines[j].item.kind == Ordinary
  }

  ghost predicate NoTerminal(lines: seq<Line<Event>>) {
    forall j :: 0 <= j < |lines| && lines[j].Whole? ==> lines[j].item.kind == Ordinary
  }

  lemma {:induction false} LastTerminalSpelled(lines: seq<Line<Event>>, i: nat, kind: Kind)
    ensures LastTerminalAt(lines, i, kind) ==> LastTerminal(lines) == Some(kind)
    ensures NoTerminal(lines) ==> LastTerminal(lines) == None
  {
    if lines != [] {
      var init := lines[..|lines| - 1];
      LastTerminalSpelled(init, i, kind);
      assert forall j :: 0 <= j < |init| ==> init[j] == lines[j];
    }
  }

  /** What each terminal event means for the record. */
  predicate Closes(kind: Kind, status: Status, reason: Option<Reason>) {
    && (kind == Completed ==> status == Ended && reason == Some(ProviderCompleted))
    && (kind == Failed ==> status == FailedRun && reason == Some(ProviderError))
    && (kind == Cancelled ==> status == CancelledRun && reason == Some(CancelledByClient))
    && (kind == Interrupted ==> status == InterruptedRun && reason == Some(DaemonRestart))
  }

  /** The larger of the two counts. */
  predicate Larger(count: nat, a: nat, b: nat) {
    count >= a && count >= b && (count == a || count == b)
  }

  /** Whether a record in memory or on disk is what recovery owes a disk, without a word about how it is worked out. */
  ghost predicate RecoveredFrom(d: Disk, r: Record, exactCount: bool) {
    var lines := Surviving(d.log);
    && (d.record.status != Starting && d.record.status != Running ==>
          r.status == d.record.status && r.reason == d.record.reason && (exactCount ==> Larger(r.count, d.record.count, |lines|)))
    && (d.record.status == Starting || d.record.status == Running ==>
          && (forall i, kind :: LastTerminalAt(lines, i, kind) ==>
                Closes(kind, r.status, r.reason) && (exactCount ==> Larger(r.count, d.record.count, |lines|)))
          && (NoTerminal(lines) ==>
                && r.status == InterruptedRun && r.reason == Some(DaemonRestart)
                && (exactCount ==> r.count >= 1 && Larger(r.count - 1, d.record.count, |lines|))))
  }

  lemma OwedSpelled(d: Disk, r: Record, exactCount: bool)
    requires r.status == Owed(d).status && r.reason == Owed(d).reason && (exactCount ==> r.count == Owed(d).count)
    ensures RecoveredFrom(d, r, exactCount)
  {
    var lines := Surviving(d.log);
    forall i, kind | LastTerminalAt(lines, i, kind) ensures LastTerminal(lines) == Some(kind) {
      LastTerminalSpelled(lines, i, kind);
    }
    LastTerminalSpelled(lines, 0, Ordinary);
  }

  /**
   The outcome of recovery, spelled out: a closed record stands; an open one over a log whose last
   terminal event is completed, failed, cancelled or interrupted becomes just that; over a log without
   one it is interrupted by the restart, counted as one more event. In memory and on disk, however
   often recovery itself crashes.
   */
  lemma RecoveryOutcome(scope: nat, steps: seq<Step>, recovery: seq<Step>)
    requires After(Created(scope), steps).process == Down
    requires forall i :: 0 <= i < |recovery| ==> IsRecovery(recovery[i])
    ensures var crashed := After(Created(scope), steps);
            var s := After(crashed, recovery);
            s.process.Up? ==> RecoveredFrom(crashed.disk, s.process.m.record, true) && RecoveredFrom(crashed.disk, s.disk.record, false)
  {
    RecoveryReachesOwed(scope, steps, recovery);
    var crashed := After(Created(scope), steps);
    var s := After(crashed, recovery);
    if s.process.Up? {
      OwedSpelled(crashed.disk, s.process.m.record, true);
      OwedSpelled(crashed.disk, s.disk.record, false);
    }
  }

  // ------------------------------------------------------------------ every step takes effect

  /** What a step does while the session is up, field by field. */
  lemma UpStepsTakeEffect(s: Session, step: Step)
    requires Inv(s) && s.process.Up?
    ensures var r, s' := s.process.m.record, Next(s, step);
            match step
            case Append(kind) =>
              && s'.process.Up? && s'.process.m.record.count == r.count + 1
              && (|s.disk.log.lines| < 5000 ==>
                    s'.disk.log == Log(s.disk.log.lines + [Whole(Event(r.count, kind))], Terminated) && s'.disk.record == s.disk.record)
              && (|s.disk.log.lines| >= 5000 ==>
                    s'.disk.log == s.disk.log && s'.disk.record == r.(count := r.count + 1, truncated := true))
            case MarkAccepted => s'.process.Up? && s'.disk.record.accepted && s'.process.m.record == r.(accepted := true) && s'.disk.log == s.disk.log
            case Finalize(status, reason, now) =>
              && s'.process.Up? && s'.disk.log == s.disk.log
              && s'.disk.record == s'.process.m.record == r.(status := status, reason := Some(reason), completedAt := Some(now))
            case SetScope(scope) => s'.process.Up? && s'.disk.record == s'.process.m.record == r.(scope := scope) && s'.disk.log == s.disk.log
            case Crash => s' == Session(s.disk, Down)
            case AppendTorn(kind, onlyNewlineMissing) =>
              |s.disk.log.lines| < 5000 ==>
                && s'.process == Down && s'.disk.record == s.disk.record && s'.disk.log.lines == s.disk.log.lines
                && s'.disk.log.tail == if onlyNewlineMissing then CutShort(Event(r.count, kind)) else Fragment([])
            case _ => s' == s
  {
    AppendedAtEnd(s.disk.log, Event(s.process.m.record.count, Ordinary));
  }

  /** One uninterrupted recovery gives exactly that. */
  lemma RecoverSpelled(s: Session, now: int)
    requires Inv(s) && s.process.Loaded?
    ensures var s' := Next(Next(s, Recover(now)), Close);
            && s'.process.Up? && RecoveredFrom(s.disk, s'.process.m.record, true) && RecoveredFrom(s.disk, s'.disk.record, false)
            && s'.disk.record.accepted == s.disk.record.accepted
            && (Open(s.disk.record.status) ==> s'.disk.record.completedAt.Some?)
            && (Open(s.disk.record.status) && s.disk.record.completedAt.Some? && !NoTerminal(s.disk.log.lines) ==>
                  s'.disk.record.completedAt == s.disk.record.completedAt)
  {
    var lines := s.disk.log.lines;
    LastTerminalIsTerminal(lines);
    var s' := Next(Next(s, Recover(now)), Close);
    SomeTerminal(lines);
    OwedSpelled(s.disk, s'.process.m.record, true);
    OwedSpelled(s.disk, s'.disk.record, false);
  }

  lemma {:induction false} SomeTerminal(lines: seq<Line<Event>>)
    ensures !NoTerminal(lines) ==> LastTerminal(lines).Some?
  {
    if lines != [] {
      var init := lines[..|lines| - 1];
      SomeTerminal(init);
      assert forall j :: 0 <= j < |init| ==> init[j] == lines[j];
    }
  }

  lemma AppendedAtEnd(log: Log<Event>, e: Event)
    ensures log.tail == Terminated ==> Appended(log, e) == Log(log.lines + [Whole(e)], Terminated)
  {
  }

  /** Loading leaves the surviving lines, and memory with the larger of the two counts. */
  lemma LoadTakesEffect(s: Session)
    requires Inv(s) && s.process == Down
    ensures var s' := Next(s, Load);
            && s'.disk.record == s.disk.record && s'.disk.log == Log(Surviving(s.disk.log), Terminated)
            && s'.process.Loaded? && s'.process.m.lines == |Surviving(s.disk.log)|
            && s'.process.m.record == s.disk.record.(count := s'.process.m.record.count)
            && Larger(s'.process.m.record.count, s.disk.record.count, |Surviving(s.disk.log)|)
  {
    LoadKeeps(s);
  }

  /** Recovery of an open session writes the line and the record it has to, also when it is cut. */
  lemma RecoveryStepsTakeEffect(s: Session, now: int)
    requires Inv(s) && s.process.Loaded? && Open(s.disk.record.status)
    requires NoTerminal(s.disk.log.lines) && |s.disk.log.lines| < 5000
    ensures var line := Event(|s.disk.log.lines|, Interrupted);
            var s' := Next(s, Recover(now));
            && s'.disk == s.disk.(log := Log(s.disk.log.lines + [Whole(line)], Terminated)) && s'.process.Closing?
            && Next(s', Close).process.Up? && Next(s', Close).disk.record == s'.process.m.record
            && s'.process.m.record == s.process.m.record.(count := |s.disk.log.lines| + 1, status := InterruptedRun,
                                                          reason := Some(DaemonRestart), completedAt := Some(now))
            && Next(s, RecoverTorn(true)) == Session(s.disk.(log := Log(s.disk.log.lines, CutShort(line))), Down)
            && Next(s, RecoverTorn(false)) == Session(s.disk.(log := Log(s.disk.log.lines, Fragment([]))), Down)
            && Next(s, Crash) == Session(s.disk, Down)
  {
    LastTerminalSpelled(s.disk.log.lines, 0, Ordinary);
    var line := Event(|s.disk.log.lines|, Interrupted);
    AppendedAtEnd(s.disk.log, line);
    assert Max(s.process.m.record.count, s.process.m.lines) == |s.disk.log.lines|;
    assert TornAppend(s.disk.log, line, true).tail == CutShort(line) && TornAppend(s.disk.log, line, false).tail == Fragment([]);
  }

  // ------------------------------------------------------------------ the object that does it

  /** The part of the store that looks after one session's record and log. */
  class SessionJournal {
    var disk: Disk
    var process: Process

    function Current(): Session
      reads this
    {
      Session(disk, process)
    }

    constructor (scope: nat)
      ensures Current() == Created(scope)
    {
      var record := Record(Starting, None, None, false, 0, false, scope);
      disk, process := Disk(record, Log([], Terminated)), Up(Memory(record, 0));
    }

    method AppendEvent(kind: Kind)
      requires process.Up?
      modifies this
      ensures process.Up? && process.m.record.count == old(process.m.record.count) + 1
      ensures old(process.m.lines) < 5000 ==>
                disk.log == Appended(old(disk.log), Event(old(process.m.record.count), kind)) && disk.record == old(disk.record)
      ensures old(process.m.lines) >= 5000 ==> disk.log == old(disk.log) && disk.record == process.m.record && disk.record.truncated
      ensures Current() == Next(old(Current()), Append(kind))
    {
      var m := process.m;
      var record := m.record.(count := m.record.count + 1);
      if m.lines < MAX_LINES {
        disk := disk.(log := Appended(disk.log, Event(m.record.count, kind)));
        process := Up(Memory(record, m.lines + 1));
      } else {
        record := record.(truncated := true);
        disk := disk.(record := record);
        process := Up(Memory(record, m.lines));
      }
    }

    method MarkAcceptedWork()
      requires process.Up?
      modifies this
      ensures process.Up? && process.m.record == old(process.m.record).(accepted := true) && disk.log == old(disk.log)
      ensures !old(process.m.record.accepted) ==> disk.record == process.m.record
      ensures Current() == Next(old(Current()), MarkAccepted)
    {
      if process.m.record.accepted { return; }
      var record := process.m.record.(accepted := true);
      disk := disk.(record := record);
      process := Up(process.m.(record := record));
    }

    method FinalizeSession(status: Status, reason: Reason, now: int)
      requires process.Up?
      modifies this
      ensures process.Up? && disk.record == process.m.record && disk.log == old(disk.log)
      ensures disk.record == old(process.m.record).(status := status, reason := Some(reason), completedAt := Some(now))
      ensures Current() == Next(old(Current()), Finalize(status, reason, now))
    {
      var record := process.m.record.(status := status, reason := Some(reason), completedAt := Some(now));
      disk := disk.(record := record);
      process := Up(process.m.(record := record));
    }

    /** Loading: repair the log, then take the larger of the two counts. */
    method LoadSession()
      requires process == Down
      modifies this
      ensures Current() == Next(old(Current()), Load)
    {
      var log, aside, scan := RepairEventLog(disk.log);
      disk := disk.(log := log);
      process := Loaded(Memory(disk.record.(count := Max(disk.record.count, scan.count)), scan.count), scan.terminal);
    }

    /** `#recoverNonTerminalSessions` for this session, without a crash. */
    method RecoverSession(now: int)
      requires Inv(Current()) && process.Loaded?
      modifies this
      ensures Current() == Next(Next(old(Current()), Recover(now)), Close)
      ensures process.Up? && RecoveredFrom(old(disk), process.m.record, true) && RecoveredFrom(old(disk), disk.record, false)
      ensures disk.record.accepted == old(disk.record.accepted) && (Open(old(disk.record.status)) ==> disk.record.completedAt.Some?)
      ensures Open(old(disk.record.status)) && old(disk.record.completedAt).Some? && !NoTerminal(old(disk.log.lines)) ==>
                disk.record.completedAt == old(disk.record.completedAt)
    {
      LastTerminalIsTerminal(disk.log.lines);
      ghost var before := Current();
      RecoverSpelled(before, now);
      var m, terminal := process.m, process.terminal;
      if !Open(m.record.status) {
        process := Up(m);
        return;
      }
      if terminal.Some? {
        var record := ClosedOut(m.record, terminal.value, now);
        disk := disk.(record := record);
        process := Up(m.(record := record));
        return;
      }
      var sequence := Max(m.record.count, m.lines);
      var lines := m.lines;
      if lines < MAX_LINES {
        disk := disk.(log := Appended(disk.log, Event(sequence, Interrupted)));
        lines := lines + 1;
      }
      var record := m.record.(count := sequence + 1, status := InterruptedRun, reason := Some(DaemonRestart), completedAt := Some(now));
      disk := disk.(record := record);
      process := Up(Memory(record, lines));
    }
  }
}
