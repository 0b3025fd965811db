/**
 A session's event log on disk: one event per line, sequences strictly increasing. Startup keeps the
 longest good prefix of the lines and sets the rest aside.
 */
module EventLogs {
  import opened Basics
  import opened LineLog

  datatype Kind = Ordinary | Completed | Failed | Cancelled | Interrupted

  datatype Event = Event(sequence: nat, kind: Kind)

  /** What the file splits into at its newlines. */
  function Pieces(log: Log<Event>): seq<Line<Event>> {
    log.lines + match log.tail
                case Terminated => []
                case CutShort(e) => [Whole(e)]
                case Fragment(parts) => [Garbage(parts)]
  }

  function LastSequence(lines: seq<Line<Event>>): int {
    if lines == [] || lines[|lines| - 1].Garbage? then -1 else lines[|lines| - 1].item.sequence
  }

  /** Every line parses and sequences strictly increase. */
  predicate Rising(lines: seq<Line<Event>>) {
    lines == []
    || (var init, last := lines[..|lines| - 1], lines[|lines| - 1];
        Rising(init) && last.Whole? && last.item.sequence > LastSequence(init))
  }

  lemma {:induction false} RisingPrefix(lines: seq<Line<Event>>, k: nat)
    requires Rising(lines) && k <= |lines|
    ensures Rising(lines[..k])
  {
    if k == |lines| {
      assert lines[..k] == lines;
    } else {
      assert lines[..|lines| - 1][..k] == lines[..k];
      RisingPrefix(lines[..|lines| - 1], k);
    }
  }

  /** In a rising log the sequences of any two lines are ordered as the lines are. */
  lemma {:induction false} RisingOrders(lines: seq<Line<Event>>, i: nat, j: nat)
    requires Rising(lines) && i < j < |lines|
    ensures lines[i].Whole? && lines[j].Whole? && lines[i].item.sequence < lines[j].item.sequence
  {
    var init := lines[..|lines| - 1];
    if j < |init| {
      RisingOrders(init, i, j);
    } else if i == |init| - 1 {
      assert Rising(init);
    } else {
      RisingOrders(init, i, |init| - 1);
    }
  }

  /** Rising means just that: every line parses, and each sequence is above all before it. */
  lemma {:induction false} RisingExactly(lines: seq<Line<Event>>)
    ensures Rising(lines) <==>
            && (forall i :: 0 <= i < |lines| ==> lines[i].Whole?)
            && (forall i, j :: 0 <= i < j < |lines| ==> lines[i].item.sequence < lines[j].item.sequence)
  {
    if Rising(lines) {
      forall i | 0 <= i < |lines| ensures lines[i].Whole? {
        if i + 1 < |lines| { RisingOrders(lines, i, i + 1); }
      }
      forall i, j | 0 <= i < j < |lines| ensures lines[i].item.sequence < lines[j].item.sequence { RisingOrders(lines, i, j); }
    } else if lines != [] {
      RisingExactly(lines[..|lines| - 1]);
    }
  }

  /** The length of the longest rising prefix. */
  function Good(lines: seq<Line<Event>>): (n: nat)
    ensures n <= |lines| && Rising(lines[..n])
  {
    if Rising(lines) then assert lines[..|lines|] == lines; |lines| else
      assert forall k :: 0 <= k < |lines| ==> lines[..|lines| - 1][..k] == lines[..k];
      Good(lines[..|lines| - 1])
  }

  lemma {:induction false} GoodIsLongest(lines: seq<Line<Event>>, k: nat)
    requires Good(lines) < k <= |lines|
    ensures !Rising(lines[..k])
  {
    if k == |lines| {
      assert lines[..k] == lines;
    } else {
      assert lines[..|lines| - 1][..k] == lines[..k];
      GoodIsLongest(lines[..|lines| - 1], k);
    }
  }

  lemma GoodOfRising(lines: seq<Line<Event>>)
    requires Rising(lines)
    ensures Good(lines) == |lines|
  {
  }

  lemma GoodIsUnique(lines: seq<Line<Event>>, n: nat)
    requires n <= |lines| && Rising(lines[..n]) && (n < |lines| ==> !Rising(lines[..n + 1]))
    ensures n == Good(lines)
  {
    if n < Good(lines) {
      assert lines[..Good(lines)][..n + 1] == lines[..n + 1];
      RisingPrefix(lines[..Good(lines)], n + 1);
    } else if Good(lines) < n {
      GoodIsLongest(lines, n);
    }
  }

  // ------------------------------------------------------------------ repair

  function Repaired(log: Log<Event>): Log<Event> {
    Log(Pieces(log)[..Good(Pieces(log))], Terminated)
  }

  function SetAside(log: Log<Event>): seq<Line<Event>> {
    Pieces(log)[Good(Pieces(log))..]
  }

  predicate Terminal(kind: Kind) {
    kind != Ordinary
  }

  /** The last terminal event of a log. */
  function LastTerminal(lines: seq<Line<Event>>): Option<Kind> {
    if lines == [] then None
    else if lines[|lines| - 1].Whole? && Terminal(lines[|lines| - 1].item.kind) then Some(lines[|lines| - 1].item.kind)
    else LastTerminal(lines[..|lines| - 1])
  }

  function FirstSequence(lines: seq<Line<Event>>): Option<nat> {
    if lines == [] || lines[0].Garbage? then None else Some(lines[0].item.sequence)
  }

  datatype Scan = Scan(count: nat, first: Option<nat>, terminal: Option<Kind>)

  /** The scanning loop of `#repairEventLog`. */
  method ScanLog(lines: seq<Line<Event>>) returns (s: Scan)
    ensures s.count == Good(lines)
    ensures s.first == FirstSequence(lines[..s.count]) && s.terminal == LastTerminal(lines[..s.count])
  {
    var good := 0;
    var first: Option<nat>, terminal: Option<Kind> := None, None;
    var last: int := -1;
    while good < |lines|
      invariant good <= |lines| && Rising(lines[..good]) && last == LastSequence(lines[..good])
      invariant first == FirstSequence(lines[..good]) && terminal == LastTerminal(lines[..good])
    {
      var line := lines[good];
      assert lines[..good + 1][..good] == lines[..good];
      if line.Garbage? || line.item.sequence <= last { break; }
      last := line.item.sequence;
      if first.None? { first := Some(line.item.sequence); }
      if Terminal(line.item.kind) { terminal := Some(line.item.kind); }
      assert good > 0 ==> lines[..good][0] == lines[..good + 1][0];
      assert good > 0 ==> lines[..good][good - 1].Whole?;
      FirstIsWhole(lines[..good]);
      good := good + 1;
    }
    GoodIsUnique(lines, good);
    s := Scan(good, first, terminal);
  }

  lemma FirstIsWhole(lines: seq<Line<Event>>)
    requires Rising(lines)
    ensures lines != [] ==> lines[0].Whole?
  {
    if lines != [] { RisingPrefix(lines, 1); }
  }

  /** `#repairEventLog`: a good log is left alone, anything else is cut after its last good line. */
  method RepairEventLog(log: Log<Event>) returns (after: Log<Event>, quarantined: seq<Line<Event>>, s: Scan)
    ensures after == Repaired(log) && quarantined == SetAside(log)
    ensures s == Scan(|after.lines|, FirstSequence(after.lines), LastTerminal(after.lines))
  {
    var lines := Pieces(log);
    s := ScanLog(lines);
    if s.count == |lines| && log.tail.Terminated? {
      assert lines[..s.count] == log.lines;
      return log, [], s;
    }
    quarantined := lines[s.count..];
    after := Log(lines[..s.count], Terminated);
  }

  /**
   What is kept is the longest good prefix, what is kept and what is set aside are together the
   original lines, and repairing again changes nothing.
   */
  lemma RepairKeepsLongestPrefix(log: Log<Event>)
    ensures Repaired(log).lines + SetAside(log) == Pieces(log)
    ensures Rising(Repaired(log).lines) && Repaired(log).tail == Terminated
    ensures forall k :: |Repaired(log).lines| < k <= |Pieces(log)| ==> !Rising(Pieces(log)[..k])
    ensures Repaired(Repaired(log)) == Repaired(log) && SetAside(Repaired(log)) == []
  {
    forall k | |Repaired(log).lines| < k <= |Pieces(log)| ensures !Rising(Pieces(log)[..k]) {
      GoodIsLongest(Pieces(log), k);
    }
    var r := Repaired(log);
    assert Pieces(r) == r.lines;
    GoodOfRising(r.lines);
  }

  /** Repair leaves a log alone exactly when it is rising and ends in a newline. */
  lemma RepairIsNoopExactly(log: Log<Event>)
    ensures Repaired(log) == log <==> Rising(log.lines) && log.tail == Terminated
  {
    RepairKeepsLongestPrefix(log);
    if Rising(log.lines) && log.tail == Terminated {
      assert Pieces(log) == log.lines;
      GoodOfRising(log.lines);
    }
  }

  // ------------------------------------------------------------------ logs numbered from 0

  /** Line i carries sequence i. */
  predicate Dense(lines: seq<Line<Event>>) {
    forall i :: 0 <= i < |lines| ==> lines[i].Whole? && lines[i].item.sequence == i
  }

  lemma {:induction false} DenseIsRising(lines: seq<Line<Event>>)
    requires Dense(lines)
    ensures Rising(lines)
  {
    if lines != [] { DenseIsRising(lines[..|lines| - 1]); }
  }

  /** A dense log with the tail a crash can leave. */
  predicate DenseLog(log: Log<Event>) {
    Dense(log.lines) && (log.tail.CutShort? ==> log.tail.item.sequence == |log.lines|)
  }

  /** The lines that survive repair: all whole lines, and a last one that lacked only its newline. */
  function Surviving(log: Log<Event>): seq<Line<Event>> {
    if log.tail.CutShort? then log.lines + [Whole(log.tail.item)] else log.lines
  }

  lemma RepairOfDense(log: Log<Event>)
    requires DenseLog(log)
    ensures Repaired(log) == Log(Surviving(log), Terminated) && Dense(Surviving(log))
  {
    var kept, all := Surviving(log), Pieces(log);
    DenseIsRising(kept);
    assert all[..|kept|] == kept;
    if log.tail.Fragment? { assert all[..|kept| + 1] == all; }
    GoodIsUnique(all, |kept|);
  }
}
