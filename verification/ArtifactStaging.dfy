/**
 Staging of generated documents for one attempt. Runs race; each stretch between two awaits is one
 step. `stillLive` and the outcome of a removal are answers from outside.

 Contents are named by their hash, so a file's content is right when it equals the hash in its path.
 */
module ArtifactStaging {

  datatype Path = Path(name: nat, hash: nat)

  datatype Row = Row(kind: nat, name: nat, hash: nat)

  /** A staging run: which document it makes. */
  datatype Run = Run(kind: nat, name: nat, hash: nat)

  function RowOf(r: Run): Row { Row(r.kind, r.name, r.hash) }
  function PathOf(r: Run): Path { Path(r.name, r.hash) }
  function Points(row: Row): Path { Path(row.name, row.hash) }

  predicate SameDocument(row: Row, r: Run) {
    row.kind == r.kind && row.name == r.name
  }

  datatype Phase =
    | Entering
    | Writing
    | Checking
    | Compensating
    | Removing(doomed: seq<Path>)
    | Registered
    | Abandoned

  datatype State = State(rows: seq<Row>, files: map<Path, nat>, phases: seq<Phase>)

  predicate Claimed(rows: seq<Row>, p: Path) {
    exists row :: row in rows && Points(row) == p
  }

  // ------------------------------------------------------------------ the row swap

  function Others(rows: seq<Row>, r: Run): seq<Row> {
    if rows == [] then []
    else Others(rows[..|rows| - 1], r) + (if SameDocument(rows[|rows| - 1], r) then [] else [rows[|rows| - 1]])
  }

  function Swapped(rows: seq<Row>, r: Run): seq<Row> {
    Others(rows, r) + [RowOf(r)]
  }

  /** Files of the superseded rows, without the one this run just wrote. */
  function Doomed(rows: seq<Row>, r: Run): seq<Path> {
    if rows == [] then []
    else
      var last := rows[|rows| - 1];
      Doomed(rows[..|rows| - 1], r) + (if SameDocument(last, r) && Points(last) != PathOf(r) then [Points(last)] else [])
  }

  lemma {:induction false} OthersAre(rows: seq<Row>, r: Run, row: Row)
    ensures row in Others(rows, r) <==> row in rows && !SameDocument(row, r)
  {
    if rows != [] {
      OthersAre(rows[..|rows| - 1], r, row);
      assert rows == rows[..|rows| - 1] + [rows[|rows| - 1]];
    }
  }

  lemma {:induction false} DoomedAre(rows: seq<Row>, r: Run, p: Path)
    ensures p in Doomed(rows, r) <==> p != PathOf(r) && exists row :: row in rows && SameDocument(row, r) && Points(row) == p
  {
    if rows != [] {
      DoomedAre(rows[..|rows| - 1], r, p);
      assert rows == rows[..|rows| - 1] + [rows[|rows| - 1]];
    }
  }

  lemma SwappedAre(rows: seq<Row>, r: Run, row: Row)
    ensures row in Swapped(rows, r) <==> row == RowOf(r) || (row in rows && !SameDocument(row, r))
  {
    OthersAre(rows, r, row);
  }

  /** The delete-and-create loop, and the paths it leaves to remove. */
  method SwapRows(rows: seq<Row>, r: Run) returns (after: seq<Row>, doomed: seq<Path>)
    ensures after == Swapped(rows, r) && doomed == Doomed(rows, r)
  {
    after, doomed := [], [];
    for i := 0 to |rows|
      invariant after == Others(rows[..i], r) && doomed == Doomed(rows[..i], r)
    {
      assert rows[..i + 1][..i] == rows[..i];
      if !SameDocument(rows[i], r) {
        after := after + [rows[i]];
      } else if Points(rows[i]) != PathOf(r) {
        doomed := doomed + [Points(rows[i])];
      }
    }
    assert rows[..|rows|] == rows;
    after := after + [RowOf(r)];
  }

  // ------------------------------------------------------------------ one step of one run

  /** Run i goes on to its next await; `yes` is what the fence or the file system answers. */
  datatype Step = Step(run: nat, yes: bool)

  function Moved(s: State, i: nat, phase: Phase): State
    requires i < |s.phases|
  {
    s.(phases := s.phases[i := phase])
  }

  function Next(runs: seq<Run>, s: State, step: Step): State {
    var i := step.run;
    if i >= |runs| || |s.phases| != |runs| then s else
      var p := PathOf(runs[i]);
      match s.phases[i]
      case Entering => Moved(s, i, if step.yes then Writing else Abandoned)
      case Writing => Moved(s.(files := s.files[p := runs[i].hash]), i, Checking)
      case Checking =>
        if step.yes then Moved(s.(rows := Swapped(s.rows, runs[i])), i, Removing(Doomed(s.rows, runs[i])))
        else Moved(s, i, if Claimed(s.rows, p) then Abandoned else Compensating)
      case Compensating => Moved(Without(s, p, step.yes), i, Abandoned)
      case Removing(doomed) =>
        if doomed == [] then Moved(s, i, Registered)
        else Moved(Without(s, doomed[0], step.yes), i, Removing(doomed[1..]))
      case Registered => s
      case Abandoned => s
  }

  /** A removal is best effort. */
  function Without(s: State, p: Path, removed: bool): State {
    if removed then s.(files := s.files - {p}) else s
  }

  function After(runs: seq<Run>, s: State, steps: seq<Step>): State {
    if steps == [] then s else Next(runs, After(runs, s, steps[..|steps| - 1]), steps[|steps| - 1])
  }

  predicate Fresh(runs: seq<Run>, s: State) {
    |s.phases| == |runs| && forall i :: 0 <= i < |runs| ==> s.phases[i] == Entering
  }

  lemma {:induction false} PhasesKept(runs: seq<Run>, s: State, steps: seq<Step>)
    requires |s.phases| == |runs|
    ensures |After(runs, s, steps).phases| == |runs|
  {
    if steps != [] { PhasesKept(runs, s, steps[..|steps| - 1]); }
  }

  lemma AfterOneMore(runs: seq<Run>, s: State, steps: seq<Step>, step: Step)
    ensures After(runs, s, steps + [step]) == Next(runs, After(runs, s, steps), step)
  {
    assert (steps + [step])[..|steps|] == steps;
  }

  // ------------------------------------------------------------------ what a step does

  /** Some row of the document's points elsewhere than the new file, at q. */
  ghost predicate Supersedes(rows: seq<Row>, r: Run, q: Path) {
    q != Path(r.name, r.hash) && exists row :: row in rows && row.kind == r.kind && row.name == r.name && Path(row.name, row.hash) == q
  }

  /** The document's rows are replaced by the one new row, and every other row is kept. */
  ghost predicate RowReplaced(was: seq<Row>, rows: seq<Row>, r: Run) {
    forall row :: row in rows <==> row == Row(r.kind, r.name, r.hash) || (row in was && (row.kind != r.kind || row.name != r.name))
  }

  /** Nobody else's phase changes. */
  ghost predicate OnlyRun(s: State, t: State, i: nat) {
    |t.phases| == |s.phases| && forall k :: 0 <= k < |s.phases| && k != i ==> t.phases[k] == s.phases[k]
  }

  /** Up to the trailing check: entry changes nothing durable, and the write puts the run's own bytes at its own path. */
  lemma EntryAndWriteTakeEffect(runs: seq<Run>, s: State, i: nat, yes: bool)
    requires |s.phases| == |runs| && i < |runs| && (s.phases[i] == Entering || s.phases[i] == Writing)
    ensures var t, r := Next(runs, s, Step(i, yes)), runs[i];
            && OnlyRun(s, t, i) && t.rows == s.rows
            && (s.phases[i] == Entering ==> t.files == s.files && t.phases[i] == if yes then Writing else Abandoned)
            && (s.phases[i] == Writing ==> t.files == s.files[Path(r.name, r.hash) := r.hash] && t.phases[i] == Checking)
  {
  }

  /**
   The trailing check: a live run's row replaces its document's, and it goes on to remove exactly the
   superseded files; an abandoned run keeps the rows, and its own file too if some row points at it.
   */
  lemma CheckTakesEffect(runs: seq<Run>, s: State, i: nat, yes: bool)
    requires |s.phases| == |runs| && i < |runs| && s.phases[i] == Checking
    ensures var t, r := Next(runs, s, Step(i, yes)), runs[i];
            && OnlyRun(s, t, i) && t.files == s.files
            && if yes then
                 RowReplaced(s.rows, t.rows, r) && t.phases[i].Removing? && forall q :: q in t.phases[i].doomed <==> Supersedes(s.rows, r, q)
               else
                 t.rows == s.rows && t.phases[i] == if exists row :: row in s.rows && Path(row.name, row.hash) == Path(r.name, r.hash)
                                                    then Abandoned else Compensating
  {
    var r := runs[i];
    forall row ensures row in Swapped(s.rows, r) <==> row == RowOf(r) || (row in s.rows && !SameDocument(row, r)) { SwappedAre(s.rows, r, row); }
    forall q ensures q in Doomed(s.rows, r) <==> Supersedes(s.rows, r, q) {
      DoomedAre(s.rows, r, q);
      if row :| row in s.rows && SameDocument(row, r) && Points(row) == q { assert Path(row.name, row.hash) == q; }
      if row :| row in s.rows && row.kind == r.kind && row.name == r.name && Path(row.name, row.hash) == q { assert Points(row) == q; }
    }
    if yes { assert Next(runs, s, Step(i, yes)).rows == Swapped(s.rows, r); }
    if row :| row in s.rows && Path(row.name, row.hash) == Path(r.name, r.hash) { assert Points(row) == PathOf(r); }
    if row :| row in s.rows && Points(row) == PathOf(r) { assert Path(row.name, row.hash) == Path(r.name, r.hash); }
  }

  /** Afterwards: one removal at a time, which may fail, of the run's own file or of the next superseded one; then the run is through. */
  lemma RemovalTakesEffect(runs: seq<Run>, s: State, i: nat, yes: bool)
    requires |s.phases| == |runs| && i < |runs| && !(s.phases[i] in [Entering, Writing, Checking])
    ensures var t, r := Next(runs, s, Step(i, yes)), runs[i];
            && OnlyRun(s, t, i) && t.rows == s.rows
            && match s.phases[i]
               case Compensating => t.files == (if yes then s.files - {Path(r.name, r.hash)} else s.files) && t.phases[i] == Abandoned
               case Removing(doomed) =>
                 if doomed == [] then t.files == s.files && t.phases[i] == Registered
                 else t.files == (if yes then s.files - {doomed[0]} else s.files) && t.phases[i] == Removing(doomed[1..])
               case _ => t == s
  {
  }

  /** A run that stays live to its trailing check leaves its document registered, alone, with its own bytes on disk. */
  lemma LiveRunRegisters(runs: seq<Run>, s: State, i: nat)
    requires |s.phases| == |runs| && i < |runs| && s.phases[i] == Entering
    ensures var t, r := Next(runs, Next(runs, Next(runs, s, Step(i, true)), Step(i, true)), Step(i, true)), runs[i];
            && RowReplaced(s.rows, t.rows, r)
            && t.files == s.files[Path(r.name, r.hash) := r.hash]
            && OnlyRun(s, t, i) && t.phases[i].Removing?
  {
    var a := Next(runs, s, Step(i, true));
    var b := Next(runs, a, Step(i, true));
    EntryAndWriteTakeEffect(runs, s, i, true);
    EntryAndWriteTakeEffect(runs, a, i, true);
    CheckTakesEffect(runs, b, i, true);
  }

  // ------------------------------------------------------------------ rows and the fence

  predicate Holds(ph: Phase) {
    ph.Removing? || ph.Registered?
  }

  /** The step that passes the trailing check. */
  predicate Registers(runs: seq<Run>, s: State, step: Step) {
    step.run < |runs| && |s.phases| == |runs| && s.phases[step.run].Checking? && step.yes
  }

  /** The runs that swapped rows, in the order they did. */
  function Swaps(runs: seq<Run>, s: State, steps: seq<Step>): seq<nat> {
    if steps == [] then []
    else
      var init, step := steps[..|steps| - 1], steps[|steps| - 1];
      Swaps(runs, s, init) + (if Registers(runs, After(runs, s, init), step) then [step.run] else [])
  }

  lemma NextRows(runs: seq<Run>, s: State, step: Step)
    ensures Next(runs, s, step).rows == if Registers(runs, s, step) then Swapped(s.rows, runs[step.run]) else s.rows
  {
  }

  lemma NextHolds(runs: seq<Run>, s: State, step: Step, i: nat)
    requires |s.phases| == |runs| && i < |runs|
    ensures |Next(runs, s, step).phases| == |runs|
    ensures Holds(Next(runs, s, step).phases[i]) <==> Holds(s.phases[i]) || (Registers(runs, s, step) && step.run == i)
  {
  }

  function RowsAfter(runs: seq<Run>, rows: seq<Row>, swaps: seq<nat>): seq<Row> {
    if swaps == [] then rows
    else
      var init, last := swaps[..|swaps| - 1], swaps[|swaps| - 1];
      if last < |runs| then Swapped(RowsAfter(runs, rows, init), runs[last]) else RowsAfter(runs, rows, init)
  }

  lemma {:induction false} SwapsMakeRows(runs: seq<Run>, s: State, steps: seq<Step>)
    ensures After(runs, s, steps).rows == RowsAfter(runs, s.rows, Swaps(runs, s, steps))
  {
    if steps != [] {
      var init, step := steps[..|steps| - 1], steps[|steps| - 1];
      SwapsMakeRows(runs, s, init);
      NextRows(runs, After(runs, s, init), step);
      var swaps := Swaps(runs, s, init);
      if Registers(runs, After(runs, s, init), step) {
        RowsAfterOne(runs, s.rows, swaps, step.run);
      } else {
        assert Swaps(runs, s, steps) == swaps;
      }
    }
  }

  lemma RowsAfterOne(runs: seq<Run>, rows: seq<Row>, swaps: seq<nat>, r: nat)
    requires r < |runs|
    ensures RowsAfter(runs, rows, swaps + [r]) == Swapped(RowsAfter(runs, rows, swaps), runs[r])
  {
    assert (swaps + [r])[..|swaps|] == swaps;
  }

  lemma {:induction false} SwapsPassed(runs: seq<Run>, s: State, steps: seq<Step>, i: nat)
    requires Fresh(runs, s) && i < |runs|
    ensures |After(runs, s, steps).phases| == |runs|
    ensures i in Swaps(runs, s, steps) <==> Holds(After(runs, s, steps).phases[i])
  {
    if steps != [] {
      SwapsPassed(runs, s, steps[..|steps| - 1], i);
      NextHolds(runs, After(runs, s, steps[..|steps| - 1]), steps[|steps| - 1], i);
    }
  }

  /**
   The rows are what the swaps make of them, and the runs that swapped are exactly those past a passed
   trailing check: a run that was fenced out changed no row, whatever the schedule.
   */
  lemma FencedOutChangesNoRow(runs: seq<Run>, s: State, steps: seq<Step>, i: nat)
    requires Fresh(runs, s) && i < |runs|
    ensures After(runs, s, steps).rows == RowsAfter(runs, s.rows, Swaps(runs, s, steps))
    ensures |After(runs, s, steps).phases| == |runs|
    ensures After(runs, s, steps).phases[i] == Abandoned ==> i !in Swaps(runs, s, steps)
    ensures After(runs, s, steps).phases[i] == Registered ==> i in Swaps(runs, s, steps)
  {
    SwapsMakeRows(runs, s, steps);
    SwapsPassed(runs, s, steps, i);
  }

  predicate OneRowPerDocument(rows: seq<Row>) {
    forall i, j :: 0 <= i < j < |rows| ==> rows[i].kind != rows[j].kind || rows[i].name != rows[j].name
  }

  lemma {:induction false} OthersKeepOne(rows: seq<Row>, r: Run)
    requires OneRowPerDocument(rows)
    ensures OneRowPerDocument(Others(rows, r))
  {
    if rows != [] {
      var init, last := rows[..|rows| - 1], rows[|rows| - 1];
      OthersKeepOne(init, r);
      forall i | 0 <= i < |Others(init, r)|
        ensures Others(init, r)[i].kind != last.kind || Others(init, r)[i].name != last.name
      {
        OthersAre(init, r, Others(init, r)[i]);
        var k :| 0 <= k < |init| && init[k] == Others(init, r)[i];
        assert rows[k] == init[k];
      }
    }
  }

  lemma SwapKeepsOne(rows: seq<Row>, r: Run)
    requires OneRowPerDocument(rows)
    ensures OneRowPerDocument(Swapped(rows, r))
  {
    OthersKeepOne(rows, r);
    forall i | 0 <= i < |Others(rows, r)| ensures !SameDocument(Others(rows, r)[i], r) {
      OthersAre(rows, r, Others(rows, r)[i]);
    }
  }

  /** A document never has two rows. */
  lemma {:induction false} OneRowAlways(runs: seq<Run>, s: State, steps: seq<Step>)
    requires OneRowPerDocument(s.rows)
    ensures OneRowPerDocument(After(runs, s, steps).rows)
  {
    if steps != [] {
      var before, step := After(runs, s, steps[..|steps| - 1]), steps[|steps| - 1];
      OneRowAlways(runs, s, steps[..|steps| - 1]);
      NextRows(runs, before, step);
      if step.run < |runs| { SwapKeepsOne(before.rows, runs[step.run]); }
    }
  }

  // ------------------------------------------------------------------ files behind the rows

  predicate OnDisk(s: State, p: Path) {
    p in s.files && s.files[p] == p.hash
  }

  /** Every registered row's file is on disk with its own bytes. */
  predicate FilesBehindRows(s: State) {
    forall row :: row in s.rows ==> OnDisk(s, Points(row))
  }

  /** A file name belongs to one kind of document, as the staging callers have it. */
  ghost predicate Named(kindOf: nat -> nat, runs: seq<Run>, rows: seq<Row>) {
    && (forall i :: 0 <= i < |runs| ==> runs[i].kind == kindOf(runs[i].name))
    && (forall row :: row in rows ==> row.kind == kindOf(row.name))
  }

  /**
   Two runs get in each other's way: both make a file that is not registered yet, or one makes the
   registered file again while the other replaces it.
   */
  predicate Clash(rows: seq<Row>, a: Run, b: Run) {
    || (PathOf(a) == PathOf(b) && !Claimed(rows, PathOf(a)))
    || (Claimed(rows, PathOf(a)) && a.name == b.name && PathOf(b) != PathOf(a))
  }

  ghost predicate NoClash(runs: seq<Run>, rows: seq<Row>) {
    forall i, j :: 0 <= i < |runs| && 0 <= j < |runs| && i != j ==> !Clash(rows, runs[i], runs[j])
  }

  /** What is known of a path some run still means to remove. */
  ghost predicate MayGo(runs: seq<Run>, s: State, p: Path)
    requires |s.phases| == |runs|
  {
    && !Claimed(s.rows, p)
    && forall j :: 0 <= j < |runs| && PathOf(runs[j]) == p ==> Holds(s.phases[j])
  }

  ghost predicate PhaseOk(runs: seq<Run>, s: State, i: nat)
    requires |s.phases| == |runs| && i < |runs|
  {
    match s.phases[i]
    case Checking => OnDisk(s, PathOf(runs[i]))
    case Compensating => !Claimed(s.rows, PathOf(runs[i]))
    case Removing(doomed) => forall p :: p in doomed ==> MayGo(runs, s, p)
    case _ => true
  }

  /** Where a registered row came from. */
  ghost predicate RowOk(runs: seq<Run>, was: seq<Row>, s: State, row: Row)
    requires |s.phases| == |runs|
  {
    row in was || exists k :: 0 <= k < |runs| && RowOf(runs[k]) == row && Holds(s.phases[k])
  }

  ghost predicate Restaged(runs: seq<Run>, was: seq<Row>, p: Path) {
    Claimed(was, p) && exists i :: 0 <= i < |runs| && PathOf(runs[i]) == p
  }

  ghost predicate Inv(kindOf: nat -> nat, runs: seq<Run>, was: seq<Row>, s: State) {
    && |s.phases| == |runs| && Named(kindOf, runs, s.rows) && FilesBehindRows(s)
    && (forall i :: 0 <= i < |runs| ==> PhaseOk(runs, s, i))
    && (forall row :: row in s.rows ==> RowOk(runs, was, s, row))
    && (forall p :: Restaged(runs, was, p) ==> Claimed(s.rows, p))
  }

  /** A run that was not registered before and found its path unclaimed is alone with that path. */
  lemma AloneWithPath(runs: seq<Run>, was: seq<Row>, s: State, kindOf: nat -> nat, i: nat, j: nat)
    requires NoClash(runs, was) && Inv(kindOf, runs, was, s)
    requires i < |runs| && j < |runs| && PathOf(runs[i]) == PathOf(runs[j]) && !Claimed(s.rows, PathOf(runs[i]))
    ensures i == j
  {
    if i != j {
      assert !Clash(was, runs[i], runs[j]);
      assert Restaged(runs, was, PathOf(runs[i]));
    }
  }

  /** Removing a path that may go hurts no row and no run that still counts on its file. */
  lemma RemovalKeeps(kindOf: nat -> nat, runs: seq<Run>, was: seq<Row>, s: State, p: Path, i: nat, phase: Phase)
    requires Inv(kindOf, runs, was, s) && i < |runs| && !Claimed(s.rows, p)
    requires forall j :: 0 <= j < |runs| && PathOf(runs[j]) == p ==> j == i || !s.phases[j].Checking?
    requires phase == Abandoned || phase.Removing?
    requires phase == Abandoned ==> !Holds(s.phases[i])
    requires phase.Removing? ==> forall q :: q in phase.doomed ==> MayGo(runs, s, q)
    ensures Inv(kindOf, runs, was, Moved(s.(files := s.files - {p}), i, phase))
  {
    var t := Moved(s.(files := s.files - {p}), i, phase);
    assert forall q :: q != p && OnDisk(s, q) ==> OnDisk(t, q);
    forall row | row in t.rows ensures OnDisk(t, Points(row)) { assert Points(row) != p; }
    HoldersSame(runs, was, s, t, i);
    forall k | 0 <= k < |runs| ensures PhaseOk(runs, t, k) { assert k != i ==> PhaseOk(runs, s, k); }
  }

  /** A move that keeps the rows and who holds them keeps what is known of paths and rows. */
  lemma HoldersSame(runs: seq<Run>, was: seq<Row>, s: State, t: State, i: nat)
    requires |s.phases| == |runs| == |t.phases| && i < |runs| && s.rows == t.rows
    requires forall k :: 0 <= k < |runs| && k != i ==> s.phases[k] == t.phases[k]
    requires Holds(s.phases[i]) ==> Holds(t.phases[i])
    ensures forall row :: RowOk(runs, was, s, row) ==> RowOk(runs, was, t, row)
    ensures forall q :: MayGo(runs, s, q) ==> MayGo(runs, t, q)
  {
    forall k | 0 <= k < |runs| ensures Holds(s.phases[k]) ==> Holds(t.phases[k]) {}
  }

  /** A move that touches neither rows nor files. */
  lemma MoveKeeps(kindOf: nat -> nat, runs: seq<Run>, was: seq<Row>, s: State, i: nat, phase: Phase)
    requires Inv(kindOf, runs, was, s) && i < |runs|
    requires Holds(s.phases[i]) ==> Holds(phase)
    requires PhaseOk(runs, Moved(s, i, phase), i)
    ensures Inv(kindOf, runs, was, Moved(s, i, phase))
  {
    var t := Moved(s, i, phase);
    HoldersSame(runs, was, s, t, i);
    forall k | 0 <= k < |runs| ensures PhaseOk(runs, t, k) { assert k != i ==> PhaseOk(runs, s, k); }
  }

  lemma WriteKeeps(kindOf: nat -> nat, runs: seq<Run>, was: seq<Row>, s: State, i: nat)
    requires Inv(kindOf, runs, was, s) && i < |runs| && s.phases[i] == Writing
    ensures Inv(kindOf, runs, was, Moved(s.(files := s.files[PathOf(runs[i]) := runs[i].hash]), i, Checking))
  {
    var t := Moved(s.(files := s.files[PathOf(runs[i]) := runs[i].hash]), i, Checking);
    assert forall q :: OnDisk(s, q) ==> OnDisk(t, q);
    HoldersSame(runs, was, s, t, i);
    forall k | 0 <= k < |runs| ensures PhaseOk(runs, t, k) { assert k != i ==> PhaseOk(runs, s, k); }
  }

  // ------------------------------------------------------------------ the registration step

  /** Nothing claims a superseded path any more, and no run still makes it. */
  lemma SupersededMayGo(kindOf: nat -> nat, runs: seq<Run>, was: seq<Row>, s: State, t: State, i: nat, q: Path)
    requires NoClash(runs, was) && Inv(kindOf, runs, was, s) && i < |runs| && s.phases[i] == Checking && Named(kindOf, runs, was)
    requires t.rows == Swapped(s.rows, runs[i]) && q in Doomed(s.rows, runs[i])
    requires |t.phases| == |runs| && forall k :: 0 <= k < |runs| && Holds(s.phases[k]) ==> Holds(t.phases[k])
    ensures MayGo(runs, t, q)
  {
    DoomedAre(s.rows, runs[i], q);
    var gone :| gone in s.rows && SameDocument(gone, runs[i]) && Points(gone) == q;
    forall row | row in t.rows ensures Points(row) != q {
      SwappedAre(s.rows, runs[i], row);
    }
    assert RowOk(runs, was, s, gone);
    if Claimed(was, q) {
      NoneRestages(runs, was, i, q);
    } else {
      var k :| 0 <= k < |runs| && RowOf(runs[k]) == gone && Holds(s.phases[k]);
      OnlyOneMakes(runs, was, k);
    }
  }

  lemma NoneRestages(runs: seq<Run>, was: seq<Row>, i: nat, q: Path)
    requires NoClash(runs, was) && i < |runs| && Claimed(was, q) && runs[i].name == q.name && PathOf(runs[i]) != q
    ensures forall j :: 0 <= j < |runs| ==> PathOf(runs[j]) != q
  {
    forall j | 0 <= j < |runs| && j != i ensures PathOf(runs[j]) != q { assert !Clash(was, runs[j], runs[i]); }
  }

  lemma OnlyOneMakes(runs: seq<Run>, was: seq<Row>, k: nat)
    requires NoClash(runs, was) && k < |runs| && !Claimed(was, PathOf(runs[k]))
    ensures forall j :: 0 <= j < |runs| && PathOf(runs[j]) == PathOf(runs[k]) ==> j == k
  {
    forall j | 0 <= j < |runs| && j != k ensures PathOf(runs[j]) != PathOf(runs[k]) { assert !Clash(was, runs[k], runs[j]); }
  }

  lemma SwapKeepsClaims(kindOf: nat -> nat, runs: seq<Run>, was: seq<Row>, rows: seq<Row>, i: nat, p: Path)
    requires NoClash(runs, was) && i < |runs| && Named(kindOf, runs, rows) && Claimed(rows, p) && Restaged(runs, was, p)
    ensures Claimed(Swapped(rows, runs[i]), p)
  {
    var row :| row in rows && Points(row) == p;
    SwappedAre(rows, runs[i], row);
    SwappedAre(rows, runs[i], RowOf(runs[i]));
    if SameDocument(row, runs[i]) {
      var k :| 0 <= k < |runs| && PathOf(runs[k]) == p;
      if k != i { assert !Clash(was, runs[k], runs[i]); }
      assert Points(RowOf(runs[i])) == p;
    }
  }

  lemma SwapMayGo(kindOf: nat -> nat, runs: seq<Run>, was: seq<Row>, s: State, t: State, i: nat, q: Path)
    requires |s.phases| == |runs| && i < |runs| && s.phases[i] == Checking && MayGo(runs, s, q)
    requires t.rows == Swapped(s.rows, runs[i])
    requires |t.phases| == |runs| && forall k :: 0 <= k < |runs| && Holds(s.phases[k]) ==> Holds(t.phases[k])
    ensures MayGo(runs, t, q)
  {
    forall row | row in t.rows ensures Points(row) != q { SwappedAre(s.rows, runs[i], row); }
  }

  lemma RegisterPhases(kindOf: nat -> nat, runs: seq<Run>, was: seq<Row>, s: State, t: State, i: nat, k: nat)
    requires NoClash(runs, was) && Named(kindOf, runs, was) && Inv(kindOf, runs, was, s)
    requires i < |runs| && k < |runs| && s.phases[i] == Checking
    requires t == Moved(s.(rows := Swapped(s.rows, runs[i])), i, Removing(Doomed(s.rows, runs[i])))
    ensures PhaseOk(runs, t, k)
  {
    assert PhaseOk(runs, s, k);
    if k == i {
      forall q | q in Doomed(s.rows, runs[i]) ensures MayGo(runs, t, q) { SupersededMayGo(kindOf, runs, was, s, t, i, q); }
    } else if s.phases[k].Compensating? {
      forall row | row in t.rows ensures Points(row) != PathOf(runs[k]) {
        SwappedAre(s.rows, runs[i], row);
        if row == RowOf(runs[i]) && Points(row) == PathOf(runs[k]) { AloneWithPath(runs, was, s, kindOf, k, i); }
      }
    } else if s.phases[k].Removing? {
      forall q | q in s.phases[k].doomed ensures MayGo(runs, t, q) { SwapMayGo(kindOf, runs, was, s, t, i, q); }
    }
  }

  lemma RegisterRows(kindOf: nat -> nat, runs: seq<Run>, was: seq<Row>, s: State, t: State, i: nat, row: Row)
    requires Inv(kindOf, runs, was, s) && i < |runs| && s.phases[i] == Checking
    requires t == Moved(s.(rows := Swapped(s.rows, runs[i])), i, Removing(Doomed(s.rows, runs[i]))) && row in t.rows
    ensures RowOk(runs, was, t, row) && OnDisk(t, Points(row)) && row.kind == kindOf(row.name)
  {
    SwappedAre(s.rows, runs[i], row);
    assert PhaseOk(runs, s, i);
    assert Holds(t.phases[i]);
    if row in s.rows && row !in was {
      assert RowOk(runs, was, s, row);
      var k :| 0 <= k < |runs| && RowOf(runs[k]) == row && Holds(s.phases[k]);
      assert Holds(t.phases[k]);
    }
  }

  lemma RegisterKeeps(kindOf: nat -> nat, runs: seq<Run>, was: seq<Row>, s: State, i: nat)
    requires NoClash(runs, was) && Named(kindOf, runs, was) && Inv(kindOf, runs, was, s) && i < |runs| && s.phases[i] == Checking
    ensures Inv(kindOf, runs, was, Moved(s.(rows := Swapped(s.rows, runs[i])), i, Removing(Doomed(s.rows, runs[i]))))
  {
    var t := Moved(s.(rows := Swapped(s.rows, runs[i])), i, Removing(Doomed(s.rows, runs[i])));
    forall row | row in t.rows ensures RowOk(runs, was, t, row) && OnDisk(t, Points(row)) && row.kind == kindOf(row.name) {
      RegisterRows(kindOf, runs, was, s, t, i, row);
    }
    forall k | 0 <= k < |runs| ensures PhaseOk(runs, t, k) { RegisterPhases(kindOf, runs, was, s, t, i, k); }
    forall p | Restaged(runs, was, p) ensures Claimed(t.rows, p) { SwapKeepsClaims(kindOf, runs, was, s.rows, i, p); }
  }

  // ------------------------------------------------------------------ every schedule

  lemma CompensationKeeps(kindOf: nat -> nat, runs: seq<Run>, was: seq<Row>, s: State, i: nat)
    requires NoClash(runs, was) && Inv(kindOf, runs, was, s) && i < |runs| && s.phases[i] == Compensating
    ensures Inv(kindOf, runs, was, Moved(s.(files := s.files - {PathOf(runs[i])}), i, Abandoned))
  {
    assert PhaseOk(runs, s, i);
    forall j | 0 <= j < |runs| && PathOf(runs[j]) == PathOf(runs[i]) ensures j == i {
      AloneWithPath(runs, was, s, kindOf, i, j);
    }
    RemovalKeeps(kindOf, runs, was, s, PathOf(runs[i]), i, Abandoned);
  }

  lemma RemovalStepKeeps(kindOf: nat -> nat, runs: seq<Run>, was: seq<Row>, s: State, i: nat)
    requires Inv(kindOf, runs, was, s) && i < |runs| && s.phases[i].Removing? && s.phases[i].doomed != []
    ensures var ps := s.phases[i].doomed; Inv(kindOf, runs, was, Moved(s.(files := s.files - {ps[0]}), i, Removing(ps[1..])))
  {
    var ps := s.phases[i].doomed;
    assert PhaseOk(runs, s, i);
    assert MayGo(runs, s, ps[0]);
    forall q | q in ps[1..] ensures MayGo(runs, s, q) { assert q in ps; }
    RemovalKeeps(kindOf, runs, was, s, ps[0], i, Removing(ps[1..]));
  }

  lemma RemovingRest(runs: seq<Run>, s: State, i: nat)
    requires |s.phases| == |runs| && i < |runs| && s.phases[i].Removing? && s.phases[i].doomed != [] && PhaseOk(runs, s, i)
    ensures PhaseOk(runs, Moved(s, i, Removing(s.phases[i].doomed[1..])), i)
  {
    var t := Moved(s, i, Removing(s.phases[i].doomed[1..]));
    HoldersSame(runs, [], s, t, i);
    forall q | q in s.phases[i].doomed[1..] ensures MayGo(runs, t, q) { assert MayGo(runs, s, q); }
  }

  lemma StepKeeps(kindOf: nat -> nat, runs: seq<Run>, was: seq<Row>, s: State, step: Step)
    requires NoClash(runs, was) && Named(kindOf, runs, was) && Inv(kindOf, runs, was, s)
    ensures Inv(kindOf, runs, was, Next(runs, s, step))
  {
    var i := step.run;
    if i < |runs| {
      assert PhaseOk(runs, s, i);
      match s.phases[i]
      case Entering => MoveKeeps(kindOf, runs, was, s, i, if step.yes then Writing else Abandoned);
      case Writing => WriteKeeps(kindOf, runs, was, s, i);
      case Checking =>
        if step.yes { RegisterKeeps(kindOf, runs, was, s, i); }
        else { MoveKeeps(kindOf, runs, was, s, i, if Claimed(s.rows, PathOf(runs[i])) then Abandoned else Compensating); }
      case Compensating =>
        if step.yes { CompensationKeeps(kindOf, runs, was, s, i); } else { MoveKeeps(kindOf, runs, was, s, i, Abandoned); }
      case Removing(doomed) =>
        if doomed == [] {
          MoveKeeps(kindOf, runs, was, s, i, Registered);
        } else if step.yes {
          RemovalStepKeeps(kindOf, runs, was, s, i);
        } else {
          RemovingRest(runs, s, i);
          MoveKeeps(kindOf, runs, was, s, i, Removing(doomed[1..]));
        }
      case Registered =>
      case Abandoned =>
    }
  }

  lemma {:induction false} InvAlways(kindOf: nat -> nat, runs: seq<Run>, s: State, steps: seq<Step>)
    requires Fresh(runs, s) && NoClash(runs, s.rows) && Named(kindOf, runs, s.rows) && FilesBehindRows(s)
    ensures Inv(kindOf, runs, s.rows, After(runs, s, steps))
  {
    if steps != [] {
      InvAlways(kindOf, runs, s, steps[..|steps| - 1]);
      StepKeeps(kindOf, runs, s.rows, After(runs, s, steps[..|steps| - 1]), steps[|steps| - 1]);
    }
  }

  /** A schedule leaves some registered row without its file. */
  ghost predicate Breaks(runs: seq<Run>, s: State, steps: seq<Step>) {
    !FilesBehindRows(After(runs, s, steps))
  }

  /**
   Run i writes first and is fenced out before run j registers the same path: its compensation,
   decided while the path was unclaimed, removes the file j has just registered.
   */
  function CompensationRace(i: nat, j: nat): seq<Step> {
    [Step(i, true), Step(i, true), Step(j, true), Step(j, true), Step(i, false), Step(j, true), Step(i, true)]
  }

  /** Run j replaces the registered file and is still removing it when run i has registered it again. */
  function RestagingRace(i: nat, j: nat): seq<Step> {
    [Step(j, true), Step(j, true), Step(j, true), Step(i, true), Step(i, true), Step(i, true), Step(j, true)]
  }

  /** Seven steps one after the other. */
  lemma SevenSteps(runs: seq<Run>, s: State, t: seq<Step>)
    requires |t| == 7
    ensures After(runs, s, t) == Next(runs, Next(runs, Next(runs, Next(runs, Next(runs, Next(runs, Next(runs, s, t[0]), t[1]), t[2]), t[3]), t[4]), t[5]), t[6])
  {
    assert t[..7] == t && t[..0] == [];
    forall k | 0 <= k < 7 ensures After(runs, s, t[..k + 1]) == Next(runs, After(runs, s, t[..k]), t[k]) {
      assert t[..k + 1] == t[..k] + [t[k]];
      AfterOneMore(runs, s, t[..k], t[k]);
    }
    assert After(runs, s, t[..2]) == Next(runs, After(runs, s, t[..1]), t[1]);
    assert After(runs, s, t[..4]) == Next(runs, After(runs, s, t[..3]), t[3]);
    assert After(runs, s, t[..6]) == Next(runs, After(runs, s, t[..5]), t[5]);
  }

  lemma EnterAndWrite(runs: seq<Run>, s: State, i: nat)
    requires |s.phases| == |runs| && i < |runs| && s.phases[i] == Entering
    ensures Next(runs, Next(runs, s, Step(i, true)), Step(i, true))
            == s.(files := s.files[PathOf(runs[i]) := runs[i].hash], phases := s.phases[i := Checking])
  {
    assert s.phases[i := Writing][i := Checking] == s.phases[i := Checking];
  }

  lemma CompensationBreaks(runs: seq<Run>, s: State, i: nat, j: nat)
    requires Fresh(runs, s) && i < |runs| && j < |runs| && i != j
    requires PathOf(runs[i]) == PathOf(runs[j]) && !Claimed(s.rows, PathOf(runs[i]))
    ensures Breaks(runs, s, CompensationRace(i, j))
  {
    SevenSteps(runs, s, CompensationRace(i, j));
    EnterAndWrite(runs, s, i);
    var written := Next(runs, Next(runs, s, Step(i, true)), Step(i, true));
    EnterAndWrite(runs, written, j);
    SwappedAre(s.rows, runs[j], RowOf(runs[j]));
  }

  lemma {:induction false} DoomedOne(rows: seq<Row>, r: Run, p: Path)
    requires p in Doomed(rows, r) && OneRowPerDocument(rows)
    ensures Doomed(rows, r) == [p]
  {
    var init, last := rows[..|rows| - 1], rows[|rows| - 1];
    if SameDocument(last, r) {
      NoneDoomed(init, r);
    } else {
      DoomedOne(init, r, p);
    }
  }

  lemma {:induction false} NoneDoomed(rows: seq<Row>, r: Run)
    requires forall k :: 0 <= k < |rows| ==> !SameDocument(rows[k], r)
    ensures Doomed(rows, r) == []
  {
    if rows != [] { NoneDoomed(rows[..|rows| - 1], r); }
  }

  /** Three steps of a live run, and where they leave its phase. */
  lemma ThreeSteps(runs: seq<Run>, s: State, i: nat)
    requires |s.phases| == |runs| && i < |runs| && s.phases[i] == Entering
    ensures var t := Next(runs, Next(runs, Next(runs, s, Step(i, true)), Step(i, true)), Step(i, true));
            && t.phases == s.phases[i := Removing(Doomed(s.rows, runs[i]))] && RowOf(runs[i]) in t.rows
  {
    EnterAndWrite(runs, s, i);
    SwappedAre(s.rows, runs[i], RowOf(runs[i]));
    assert s.phases[i := Checking][i := Removing(Doomed(s.rows, runs[i]))] == s.phases[i := Removing(Doomed(s.rows, runs[i]))];
  }

  lemma RestagingBreaks(runs: seq<Run>, s: State, i: nat, j: nat)
    requires Fresh(runs, s) && OneRowPerDocument(s.rows) && i < |runs| && j < |runs| && i != j
    requires PathOf(runs[i]) in Doomed(s.rows, runs[j])
    ensures Breaks(runs, s, RestagingRace(i, j))
  {
    DoomedOne(s.rows, runs[j], PathOf(runs[i]));
    SevenSteps(runs, s, RestagingRace(i, j));
    ThreeSteps(runs, s, j);
    var swapped := Next(runs, Next(runs, Next(runs, s, Step(j, true)), Step(j, true)), Step(j, true));
    ThreeSteps(runs, swapped, i);
    var again := Next(runs, Next(runs, Next(runs, swapped, Step(i, true)), Step(i, true)), Step(i, true));
    LateRemoval(runs, again, j, RowOf(runs[i]));
  }

  /** A removal of a path some row points at leaves that row without its file. */
  lemma LateRemoval(runs: seq<Run>, s: State, j: nat, row: Row)
    requires |s.phases| == |runs| && j < |runs| && s.phases[j] == Removing([Points(row)]) && row in s.rows
    ensures !FilesBehindRows(Next(runs, s, Step(j, true)))
  {
  }

  /** Content 1 is registered; run 0 makes it again while run 1 replaces it by content 2. */
  lemma DifferentHashesBreak()
    ensures var runs, rows := [Run(0, 0, 1), Run(0, 0, 2)], [Row(0, 0, 1)];
            var s := State(rows, map[Path(0, 1) := 1], [Entering, Entering]);
            runs[0].hash != runs[1].hash && FilesBehindRows(s) && OneRowPerDocument(rows) && Breaks(runs, s, RestagingRace(0, 1))
  {
    var runs, rows := [Run(0, 0, 1), Run(0, 0, 2)], [Row(0, 0, 1)];
    var s := State(rows, map[Path(0, 1) := 1], [Entering, Entering]);
    assert rows[0] in rows && Points(rows[0]) == PathOf(runs[0]);
    DoomedAre(rows, runs[1], PathOf(runs[0]));
    RestagingBreaks(runs, s, 0, 1);
  }

  lemma ClashDooms(kindOf: nat -> nat, runs: seq<Run>, rows: seq<Row>, i: nat, j: nat)
    requires Named(kindOf, runs, rows) && i < |runs| && j < |runs|
    requires Claimed(rows, PathOf(runs[i])) && runs[i].name == runs[j].name && PathOf(runs[j]) != PathOf(runs[i])
    ensures PathOf(runs[i]) in Doomed(rows, runs[j])
  {
    DoomedAre(rows, runs[j], PathOf(runs[i]));
  }

  /**
   Every schedule keeps every registered row's file on disk with its own bytes exactly when no two of
   the runs clash. Different hashes among the runs are not enough: a run must also not make again a
   registered file that another run replaces.
   */
  lemma FilesKeptExactly(kindOf: nat -> nat, runs: seq<Run>, s: State)
    requires Fresh(runs, s) && Named(kindOf, runs, s.rows) && OneRowPerDocument(s.rows) && FilesBehindRows(s)
    ensures (forall steps :: !Breaks(runs, s, steps)) <==> NoClash(runs, s.rows)
  {
    if NoClash(runs, s.rows) {
      forall steps ensures !Breaks(runs, s, steps) { InvAlways(kindOf, runs, s, steps); }
    } else {
      var i, j :| 0 <= i < |runs| && 0 <= j < |runs| && i != j && Clash(s.rows, runs[i], runs[j]);
      if PathOf(runs[i]) == PathOf(runs[j]) {
        CompensationBreaks(runs, s, i, j);
      } else {
        ClashDooms(kindOf, runs, s.rows, i, j);
        RestagingBreaks(runs, s, i, j);
      }
    }
  }

  // ------------------------------------------------------------------ the store

  class ArtifactStore {
    var rows: seq<Row>
    var files: map<Path, nat>
    var phases: seq<Phase>

    constructor (rows: seq<Row>, files: map<Path, nat>, runs: nat)
      ensures Current() == State(rows, files, seq(runs, _ => Entering))
    {
      this.rows, this.files, this.phases := rows, files, seq(runs, _ => Entering);
    }

    function Current(): State
      reads this
    {
      State(rows, files, phases)
    }

    /** One stretch of `writeAndRegisterArtifact` between two awaits. */
    method Advance(runs: seq<Run>, i: nat, yes: bool)
      requires i < |runs| && |phases| == |runs|
      modifies this
      ensures Current() == Next(runs, old(Current()), Step(i, yes))
    {
      var p := PathOf(runs[i]);
      match phases[i]
      case Entering =>
        phases := phases[i := if yes then Writing else Abandoned];
      case Writing =>
        files := files[p := runs[i].hash];
        phases := phases[i := Checking];
      case Checking =>
        if yes {
          var doomed;
          rows, doomed := SwapRows(rows, runs[i]);
          phases := phases[i := Removing(doomed)];
        } else {
          phases := phases[i := if Claimed(rows, p) then Abandoned else Compensating];
        }
      case Compensating =>
        if yes { files := files - {p}; }
        phases := phases[i := Abandoned];
      case Removing(doomed) =>
        if doomed == [] {
          phases := phases[i := Registered];
        } else {
          if yes { files := files - {doomed[0]}; }
          phases := phases[i := Removing(doomed[1..])];
        }
      case Registered =>
      case Abandoned =>
    }
  }
}
