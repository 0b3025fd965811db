/**
 The workspace audit log: an append-only file that rotates into archive segments, a latch that stops
 every append after one failed write, and an all-or-nothing load.

 Each call carries the answers of the outside world: clock readings, and which file-system calls fail
 and how much of a failed append reached the disk.
 */
module AuditLog {
  import opened Basics
  import opened LineLog

  type Input = nat  // what the caller wants recorded

  datatype Entry = Entry(sequence: nat, input: Input, stamp: nat)

  /** `size` is the serialized length of an entry, without the newline. */
  datatype Config = Config(maxBytes: nat, maxAge: nat, size: Entry -> nat)

  /** A file that is no longer the active one: sealed by a rotation, or set aside because it did not load. */
  datatype Past = Sealed(file: Log<Entry>, rotatedAt: int) | SetAside(file: Log<Entry>)

  /** An entry whose text reached the disk, and whether the append that wrote it returned it. */
  datatype Landed = Landed(entry: Entry, returned: bool)

  datatype Audit = Audit(
    entries: seq<Entry>,
    bytes: nat,
    nextSequence: nat,
    unhealthy: bool,
    file: Option<Log<Entry>>,     // the active file
    past: seq<Past>,              // every file there was before it, in order
    kept: set<nat>,               // those of them that have not been pruned
    landed: seq<Landed>)          // every entry that reached the disk, in order

  const FRESH: Audit := Audit([], 0, 0, false, None, [], {}, [])

  /** How much of a failed append reached the disk. A crash inside an append is such a fault and then a restart. */
  datatype WriteFault = NoFault | NothingLanded | EverythingLanded | Cut(onlyNewlineMissing: bool)

  datatype Env = Env(
    valid: bool,              // the entry passes the schema
    stamp: nat, retryStamp: nat,
    rotatedAt: int, renameFails: bool, syncFails: bool,
    pruneAt: int, unlinkFails: set<nat>,
    quarantineFails: bool,
    write: WriteFault)

  datatype Outcome = Appended(entry: Entry) | Rejected | TooLarge | Unavailable

  // ------------------------------------------------------------------ pruning and rotation

  function Expired(c: Config, past: seq<Past>, now: int): set<nat> {
    set i | 0 <= i < |past| && past[i].Sealed? && past[i].rotatedAt < now - c.maxAge
  }

  /** Deletes whole segments older than the maximum age; a failing delete leaves its segment. */
  function Pruned(c: Config, s: Audit, env: Env): Audit {
    s.(kept := s.kept - (Expired(c, s.past, env.pruneAt) - env.unlinkFails))
  }

  function Emptied(s: Audit): Audit {
    s.(entries := [], nextSequence := 0, bytes := 0)
  }

  /** The active file becomes a past one. */
  function PutAway(s: Audit, p: Past): Audit {
    Emptied(s).(file := None, past := s.past + [p], kept := s.kept + {|s.past|})
  }

  function Rotated(c: Config, s: Audit, env: Env): Audit {
    if s.file.None? then Pruned(c, Emptied(s), env)
    else if env.renameFails then s.(unhealthy := true)
    else
      var sealed := PutAway(s, Sealed(s.file.value, env.rotatedAt));
      Pruned(c, if env.syncFails then sealed.(unhealthy := true) else sealed, env)
  }

  // ------------------------------------------------------------------ append

  const NO_FILE: Log<Entry> := Log([], Terminated)

  function ActiveFile(s: Audit): Log<Entry> {
    if s.file.Some? then s.file.value else NO_FILE
  }

  function LineBytes(c: Config, e: Entry): nat {
    c.size(e) + 1
  }

  /** The file after an append that went well or failed in one of the ways it can. */
  function Landing(file: Log<Entry>, e: Entry, fault: WriteFault): Log<Entry> {
    match fault
    case NoFault => LineLog.Appended(file, e)
    case NothingLanded => file
    case EverythingLanded => LineLog.Appended(file, e)
    case Cut(only) => TornAppend(file, e, only)
  }

  predicate Lands(fault: WriteFault) {
    fault != NothingLanded && fault != Cut(false)
  }

  /** The durable write and what follows it. */
  function Wrote(c: Config, s: Audit, e: Entry, fault: WriteFault): (Audit, Outcome) {
    var file := if fault.NothingLanded? then s.file else Some(Landing(ActiveFile(s), e, fault));
    var landed := if Lands(fault) then s.landed + [Landed(e, fault.NoFault?)] else s.landed;
    if fault.NoFault? then
      (s.(file := file, landed := landed, entries := s.entries + [e], nextSequence := s.nextSequence + 1,
          bytes := s.bytes + LineBytes(c, e)), Appended(e))
    else (s.(file := file, landed := landed, unhealthy := true), Unavailable)
  }

  /** `#appendNow`: rotation seals the active file and tries once more, with fewer active bytes. */
  function AppendNow(c: Config, s: Audit, input: Input, env: Env, retry: bool): (Audit, Outcome)
    decreases s.bytes
  {
    if s.unhealthy then (s, Unavailable)
    else if !env.valid then (s, Rejected)
    else
      var e := Entry(s.nextSequence, input, if retry then env.retryStamp else env.stamp);
      if s.bytes + LineBytes(c, e) > c.maxBytes then
        if s.bytes == 0 then (s, TooLarge) else
          var s1 := Rotated(c, s, env);
          if s1.unhealthy then (s1, Unavailable) else AppendNow(c, s1, input, env, true)
      else Wrote(c, s, e, env.write)
  }

  // ------------------------------------------------------------------ load

  predicate Numbered(entries: seq<Entry>) {
    forall i :: 0 <= i < |entries| ==> entries[i].sequence == i
  }

  /** All or nothing: every line parses and the numbers are 0, 1, 2, ... */
  predicate Loads(file: Log<Entry>) {
    Readable(file) && Numbered(Items(file))
  }

  function PartsBytes(c: Config, parts: seq<Entry>): nat {
    if parts == [] then 0 else PartsBytes(c, parts[..|parts| - 1]) + c.size(parts[|parts| - 1])
  }

  function LinesBytes(c: Config, lines: seq<Line<Entry>>): nat {
    if lines == [] then 0 else LinesBytes(c, lines[..|lines| - 1]) + PartsBytes(c, LineParts(lines[|lines| - 1])) + 1
  }

  /** The size of a file that holds no partial text. */
  function FileBytes(c: Config, file: Log<Entry>): nat {
    LinesBytes(c, file.lines) + PartsBytes(c, TailParts(file.tail))
  }

  /** Opening the store over what is on disk. A file that does not load is set aside whole, or the store latches. */
  function Opened(c: Config, s: Audit, env: Env): Audit {
    var p := Pruned(c, Emptied(s).(unhealthy := false), env);
    if s.file.None? then p
    else if Loads(s.file.value) then
      var entries := Items(s.file.value);
      p.(entries := entries, nextSequence := |entries|, bytes := FileBytes(c, s.file.value))
    else if env.quarantineFails then p.(unhealthy := true)
    else PutAway(p, SetAside(s.file.value))
  }

  // ------------------------------------------------------------------ conservation

  function AllHeld(past: seq<Past>): seq<Entry> {
    if past == [] then [] else AllHeld(past[..|past| - 1]) + Held(past[|past| - 1].file)
  }

  function EntriesOf(landed: seq<Landed>): seq<Entry> {
    if landed == [] then [] else EntriesOf(landed[..|landed| - 1]) + [landed[|landed| - 1].entry]
  }

  /** The entries that appends have returned. */
  function Returned(landed: seq<Landed>): seq<Entry> {
    if landed == [] then []
    else Returned(landed[..|landed| - 1]) + (if landed[|landed| - 1].returned then [landed[|landed| - 1].entry] else [])
  }

  /** A past file is numbered from 0 without a gap, and one that was set aside does not load. */
  predicate PastOk(p: Past) {
    Numbered(Held(p.file)) && (p.SetAside? ==> !Loads(p.file))
  }

  ghost predicate MemoryOk(c: Config, s: Audit) {
    && s.entries <= Held(ActiveFile(s)) && s.nextSequence == |s.entries|
    && (!s.unhealthy ==> s.entries == Held(ActiveFile(s)) && s.bytes == FileBytes(c, ActiveFile(s)))
    && (s.file.None? ==> s.bytes == 0)
  }

  /**
   The law of the store, whatever failed: past files and then the active one hold exactly the entries
   that reached the disk, in order; each is numbered from 0; a healthy memory is the active file's
   entries and size; no file that was set aside is ever deleted.
   */
  ghost predicate Conserves(c: Config, s: Audit) {
    && AllHeld(s.past) + Held(ActiveFile(s)) == EntriesOf(s.landed)
    && Numbered(Held(ActiveFile(s))) && MemoryOk(c, s) && PastKept(s.past, s.kept)
  }

  ghost predicate PastKept(past: seq<Past>, kept: set<nat>) {
    && (forall i :: 0 <= i < |past| ==> PastOk(past[i]))
    && (forall i :: i in kept ==> i < |past|)
    && (forall i :: 0 <= i < |past| && past[i].SetAside? ==> i in kept)
  }

  lemma PastKeptSnoc(past: seq<Past>, kept: set<nat>, p: Past)
    requires PastKept(past, kept) && PastOk(p)
    ensures PastKept(past + [p], kept + {|past|})
  {
  }

  lemma AllHeldSnoc(past: seq<Past>, p: Past)
    ensures AllHeld(past + [p]) == AllHeld(past) + Held(p.file)
  {
    assert (past + [p])[..|past|] == past;
  }

  lemma LandedSnoc(landed: seq<Landed>, l: Landed)
    ensures EntriesOf(landed + [l]) == EntriesOf(landed) + [l.entry]
    ensures Returned(landed + [l]) == Returned(landed) + (if l.returned then [l.entry] else [])
  {
    assert (landed + [l])[..|landed|] == landed;
  }

  lemma EmptyFile(c: Config)
    ensures Held(NO_FILE) == [] && FileBytes(c, NO_FILE) == 0 && Loads(NO_FILE) && Items(NO_FILE) == []
  {
  }

  lemma EmptyMemory(c: Config, s: Audit)
    requires s.file.None? && s.entries == [] && s.bytes == 0 && s.nextSequence == 0
    ensures Held(ActiveFile(s)) == [] && Numbered(Held(ActiveFile(s))) && MemoryOk(c, s)
  {
    EmptyFile(c);
  }

  lemma PutAwayConserves(c: Config, s: Audit, p: Past)
    requires AllHeld(s.past) + Held(ActiveFile(s)) == EntriesOf(s.landed) && PastKept(s.past, s.kept)
    requires s.file == Some(p.file) && PastOk(p)
    ensures Conserves(c, PutAway(s, p))
  {
    AllHeldSnoc(s.past, p);
    PastKeptSnoc(s.past, s.kept, p);
    EmptyMemory(c, PutAway(s, p));
    NothingMore(AllHeld(s.past + [p]));
  }

  lemma NothingMore<T>(s: seq<T>)
    ensures s + [] == s
  {
  }

  lemma PrunedConserves(c: Config, s: Audit, env: Env)
    requires Conserves(c, s)
    ensures Conserves(c, Pruned(c, s, env))
  {
  }

  lemma RotatedConserves(c: Config, s: Audit, env: Env)
    requires Conserves(c, s) && !s.unhealthy && s.bytes > 0
    ensures Conserves(c, Rotated(c, s, env)) && Rotated(c, s, env).landed == s.landed
    ensures !Rotated(c, s, env).unhealthy ==> Rotated(c, s, env).bytes == 0 && Rotated(c, s, env).file.None?
    ensures |Rotated(c, s, env).past| <= |s.past| + 1
  {
    if !env.renameFails {
      PutAwayConserves(c, s, Sealed(s.file.value, env.rotatedAt));
      var sealed := PutAway(s, Sealed(s.file.value, env.rotatedAt));
      PrunedConserves(c, if env.syncFails then sealed.(unhealthy := true) else sealed, env);
    }
  }

  lemma {:induction false} PartsBytesSnoc(c: Config, parts: seq<Entry>, e: Entry)
    ensures PartsBytes(c, parts + [e]) == PartsBytes(c, parts) + c.size(e)
  {
    assert (parts + [e])[..|parts|] == parts;
  }

  lemma BytesOfAppended(c: Config, file: Log<Entry>, e: Entry)
    ensures FileBytes(c, LineLog.Appended(file, e)) == FileBytes(c, file) + LineBytes(c, e)
  {
    assert LineLog.Appended(file, e).lines[..|file.lines|] == file.lines;
    PartsBytesSnoc(c, TailParts(file.tail), e);
    if file.tail.Terminated? { assert [] + [e] == [e]; }
  }

  lemma HeldOfLanding(file: Log<Entry>, e: Entry, fault: WriteFault)
    ensures Held(Landing(file, e, fault)) == Held(file) + (if Lands(fault) then [e] else [])
  {
    HeldOfAppended(file, e);
    if fault.Cut? { HeldOfTorn(file, e, fault.onlyNewlineMissing); }
  }

  lemma WroteMemory(c: Config, s: Audit, e: Entry, fault: WriteFault)
    requires MemoryOk(c, s) && !s.unhealthy && Numbered(s.entries) && e.sequence == s.nextSequence
    ensures var s' := Wrote(c, s, e, fault).0;
            && MemoryOk(c, s') && Numbered(Held(ActiveFile(s')))
            && Held(ActiveFile(s')) == Held(ActiveFile(s)) + (if Lands(fault) then [e] else [])
  {
    var s' := Wrote(c, s, e, fault).0;
    HeldOfLanding(ActiveFile(s), e, fault);
    assert ActiveFile(s') == Landing(ActiveFile(s), e, fault);
    if fault.NoFault? { BytesOfAppended(c, ActiveFile(s), e); }
    NothingMore(s.entries);
  }

  lemma LedgerGrows(past: seq<Entry>, held: seq<Entry>, landed: seq<Landed>, l: Landed)
    requires past + held == EntriesOf(landed)
    ensures past + (held + [l.entry]) == EntriesOf(landed + [l])
  {
    LandedSnoc(landed, l);
    assert past + (held + [l.entry]) == past + held + [l.entry];
  }

  lemma WroteConserves(c: Config, s: Audit, e: Entry, fault: WriteFault)
    requires Conserves(c, s) && !s.unhealthy && e.sequence == s.nextSequence
    ensures Conserves(c, Wrote(c, s, e, fault).0)
    ensures Returned(Wrote(c, s, e, fault).0.landed) == Returned(s.landed) + (if fault.NoFault? then [e] else [])
  {
    WroteMemory(c, s, e, fault);
    LedgerGrows(AllHeld(s.past), Held(ActiveFile(s)), s.landed, Landed(e, fault.NoFault?));
    LandedSnoc(s.landed, Landed(e, fault.NoFault?));
    NothingMore(Held(ActiveFile(s)));
    NothingMore(Returned(s.landed));
  }

  /**
   One append, with any faults: the law is kept, an entry is returned exactly when it becomes the next
   returned one on disk, a healthy append that returns leaves the store healthy, and the file is
   rotated at most once.
   */
  lemma {:induction false} AppendConserves(c: Config, s: Audit, input: Input, env: Env, retry: bool)
    requires Conserves(c, s)
    ensures var (s', outcome) := AppendNow(c, s, input, env, retry);
            && Conserves(c, s')
            && Returned(s'.landed) == Returned(s.landed) + (if outcome.Appended? then [outcome.entry] else [])
            && (outcome.Appended? ==> outcome.entry.input == input && !s'.unhealthy)
            && |s'.past| <= |s.past| + (if s.bytes > 0 then 1 else 0)
    decreases s.bytes
  {
    if !s.unhealthy && env.valid {
      var e := Entry(s.nextSequence, input, if retry then env.retryStamp else env.stamp);
      if s.bytes + LineBytes(c, e) <= c.maxBytes {
        WroteConserves(c, s, e, env.write);
      } else if s.bytes > 0 {
        RotatedConserves(c, s, env);
        var s1 := Rotated(c, s, env);
        if !s1.unhealthy { AppendConserves(c, s1, input, env, true); }
      }
    }
  }

  // ------------------------------------------------------------------ an append takes effect

  predicate Fits(c: Config, bytes: nat, e: Entry) {
    bytes + c.size(e) + 1 <= c.maxBytes
  }

  /** An entry that fits is written behind the others, with the next number and the time of the call; a fault latches. */
  lemma FittingAppend(c: Config, s: Audit, input: Input, env: Env)
    requires !s.unhealthy && env.valid && Fits(c, s.bytes, Entry(s.nextSequence, input, env.stamp))
    ensures var e := Entry(s.nextSequence, input, env.stamp);
            var (s', outcome) := AppendNow(c, s, input, env, false);
            && s'.past == s.past
            && (env.write == NoFault ==>
                  && outcome == Appended(e) && s'.entries == s.entries + [e] && !s'.unhealthy
                  && s'.file == Some(LineLog.Appended(ActiveFile(s), e)) && s'.landed == s.landed + [Landed(e, true)])
            && (env.write != NoFault ==> outcome == Unavailable && s'.unhealthy && s'.entries == s.entries)
            && (env.write == NothingLanded ==> s'.file == s.file && s'.landed == s.landed)
            && (env.write == EverythingLanded ==>
                  s'.file == Some(LineLog.Appended(ActiveFile(s), e)) && s'.landed == s.landed + [Landed(e, false)])
            && (env.write == Cut(true) ==>
                  s'.file == Some(TornAppend(ActiveFile(s), e, true)) && s'.landed == s.landed + [Landed(e, false)])
            && (env.write == Cut(false) ==> s'.file == Some(TornAppend(ActiveFile(s), e, false)) && s'.landed == s.landed)
  {
  }

  /** One that does not fit seals the file, with the time of the rotation, and is the first of the next. */
  lemma RotatingAppend(c: Config, s: Audit, input: Input, env: Env)
    requires Conserves(c, s) && !s.unhealthy && env.valid && s.bytes > 0
    requires !Fits(c, s.bytes, Entry(s.nextSequence, input, env.stamp))
    ensures var e := Entry(0, input, env.retryStamp);
            var (s', outcome) := AppendNow(c, s, input, env, false);
            && (env.renameFails ==> outcome == Unavailable && s' == s.(unhealthy := true))
            && (!env.renameFails ==> s'.past == s.past + [Sealed(ActiveFile(s), env.rotatedAt)])
            && (!env.renameFails && env.syncFails ==> outcome == Unavailable && s'.unhealthy && s'.file == None && s'.entries == [])
            && (!env.renameFails && !env.syncFails && Fits(c, 0, e) && env.write == NoFault ==>
                  outcome == Appended(e) && s'.entries == [e] && s'.file == Some(LineLog.Appended(NO_FILE, e)) && !s'.unhealthy)
            && (!env.renameFails && !env.syncFails && !Fits(c, 0, e) ==> outcome == TooLarge && s'.file == None && s'.landed == s.landed)
  {
    RotatedEmpties(c, s, env);
    var s1 := Rotated(c, s, env);
    if !s1.unhealthy { AfterRotation(c, s1, input, env); }
  }

  lemma AfterRotation(c: Config, s: Audit, input: Input, env: Env)
    requires !s.unhealthy && env.valid && s.bytes == 0 && s.nextSequence == 0 && s.file == None && s.entries == []
    ensures var e := Entry(0, input, env.retryStamp);
            var (s', outcome) := AppendNow(c, s, input, env, true);
            && s'.past == s.past
            && (Fits(c, 0, e) && env.write == NoFault ==>
                  outcome == Appended(e) && s'.entries == [e] && s'.file == Some(LineLog.Appended(NO_FILE, e)) && !s'.unhealthy)
            && (!Fits(c, 0, e) ==> outcome == TooLarge && s' == s)
  {
    assert [] + [Entry(0, input, env.retryStamp)] == [Entry(0, input, env.retryStamp)];
  }

  /** The refusals that touch nothing. */
  lemma RefusedAppend(c: Config, s: Audit, input: Input, env: Env)
    ensures s.unhealthy ==> AppendNow(c, s, input, env, false) == (s, Unavailable)
    ensures !s.unhealthy && !env.valid ==> AppendNow(c, s, input, env, false) == (s, Rejected)
    ensures !s.unhealthy && env.valid && s.bytes == 0 && !Fits(c, 0, Entry(s.nextSequence, input, env.stamp)) ==>
              AppendNow(c, s, input, env, false) == (s, TooLarge)
  {
  }

  // ------------------------------------------------------------------ runs

  datatype Step = Append(input: Input, env: Env) | Close | Restart(env: Env)

  function Apply(c: Config, s: Audit, step: Step): Audit {
    match step
    case Append(input, env) => AppendNow(c, s, input, env, false).0
    case Close => s.(unhealthy := true)
    case Restart(env) => Opened(c, s, env)
  }

  function After(c: Config, steps: seq<Step>): Audit {
    if steps == [] then FRESH else Apply(c, After(c, steps[..|steps| - 1]), steps[|steps| - 1])
  }

  /** A numbered file loads exactly when it is readable, and then gives back all it holds. */
  lemma LoadsWhenReadable(file: Log<Entry>)
    requires Numbered(Held(file))
    ensures Loads(file) <==> Readable(file)
    ensures Loads(file) ==> Items(file) == Held(file)
  {
    if Readable(file) { HeldOfReadable(file); }
  }

  lemma OpenedConserves(c: Config, s: Audit, env: Env)
    requires Conserves(c, s)
    ensures Conserves(c, Opened(c, s, env)) && Opened(c, s, env).landed == s.landed
  {
    var p := Pruned(c, Emptied(s).(unhealthy := false), env);
    PrunedKept(c, s.past, s.kept, env);
    if s.file.None? {
      EmptyFile(c);
      assert Conserves(c, p);
    } else {
      LoadsWhenReadable(s.file.value);
      if !Loads(s.file.value) && !env.quarantineFails { PutAwayConserves(c, p, SetAside(s.file.value)); }
    }
  }

  lemma PrunedKept(c: Config, past: seq<Past>, kept: set<nat>, env: Env)
    requires PastKept(past, kept)
    ensures PastKept(past, kept - (Expired(c, past, env.pruneAt) - env.unlinkFails))
  {
  }

  /**
   After any run, with failed writes, crashes inside an append and restarts anywhere: the files there
   ever were, in order, hold every entry that reached the disk once and in order. So every returned
   entry is there, between unreturned ones only, as long as its file has not been pruned.
   */
  lemma {:induction false} RunsConserve(c: Config, steps: seq<Step>)
    ensures Conserves(c, After(c, steps))
  {
    if steps == [] {
      EmptyFile(c);
    } else {
      var s, step := After(c, steps[..|steps| - 1]), steps[|steps| - 1];
      RunsConserve(c, steps[..|steps| - 1]);
      match step
      case Append(input, env) => AppendConserves(c, s, input, env, false);
      case Close =>
      case Restart(env) => OpenedConserves(c, s, env);
    }
  }

  lemma AfterRestart(c: Config, steps: seq<Step>, env: Env)
    ensures After(c, steps + [Restart(env)]) == Opened(c, After(c, steps), env)
  {
    assert (steps + [Restart(env)])[..|steps|] == steps;
  }

  /** All the active file holds if it loads, else nothing, the file kept aside whole. */
  ghost predicate GivenBack(s: Audit, s': Audit, quarantineFails: bool) {
    if Loads(ActiveFile(s)) then s'.entries == Held(ActiveFile(s)) && !s'.unhealthy && s'.past == s.past
    else
      && s.file.Some? && s'.entries == [] && s'.unhealthy == quarantineFails
      && (!quarantineFails ==> s'.file.None? && s'.past == s.past + [SetAside(s.file.value)] && |s.past| in s'.kept)
  }

  lemma OpenedFinds(c: Config, s: Audit, env: Env)
    requires Numbered(Held(ActiveFile(s)))
    ensures GivenBack(s, Opened(c, s, env), env.quarantineFails)
  {
    LoadsWhenReadable(ActiveFile(s));
    EmptyFile(c);
  }

  /** What a restart after any run gives back. */
  lemma RestartFinds(c: Config, steps: seq<Step>, env: Env)
    ensures GivenBack(After(c, steps), After(c, steps + [Restart(env)]), env.quarantineFails)
  {
    RunsConserve(c, steps);
    AfterRestart(c, steps, env);
    OpenedFinds(c, After(c, steps), env);
  }

  // ------------------------------------------------------------------ which files load

  /** What an append does to the files: whether it begins a new active file, and the write it makes there. */
  function Attempt(c: Config, s: Audit, input: Input, env: Env, retry: bool): (bool, Option<WriteFault>)
    decreases s.bytes
  {
    if s.unhealthy || !env.valid then (false, None)
    else
      var e := Entry(s.nextSequence, input, if retry then env.retryStamp else env.stamp);
      if s.bytes + LineBytes(c, e) > c.maxBytes then
        if s.bytes == 0 then (false, None) else
          var s1 := Rotated(c, s, env);
          if s1.unhealthy then (s1.file.None?, None) else (true, Attempt(c, s1, input, env, true).1)
      else (false, Some(env.write))
  }

  /** Every write that was made to the active file since it was begun, and how it went. */
  function Writes(c: Config, steps: seq<Step>): seq<WriteFault> {
    if steps == [] then []
    else
      var s, earlier := After(c, steps[..|steps| - 1]), Writes(c, steps[..|steps| - 1]);
      match steps[|steps| - 1]
      case Append(input, env) =>
        var (anew, write) := Attempt(c, s, input, env, false);
        (if anew then [] else earlier) + (if write.Some? then [write.value] else [])
      case Close => earlier
      case Restart(env) => if Opened(c, s, env).file.None? then [] else earlier
  }

  /** No line was torn, and nothing landed behind a line that lost its newline. */
  ghost predicate Intact(writes: seq<WriteFault>) {
    && (forall i :: 0 <= i < |writes| ==> writes[i] != Cut(false))
    && (forall i, j :: 0 <= i < j < |writes| && writes[i] == Cut(true) ==> writes[j] == NothingLanded)
  }

  datatype Shape = Clean | Unterminated | Broken

  function ShapeOf(file: Log<Entry>): Shape {
    if !Readable(file) then Broken else if file.tail.CutShort? then Unterminated else Clean
  }

  function Reshaped(shape: Shape, fault: WriteFault): Shape {
    if fault.NothingLanded? then shape
    else if shape.Clean? then (if fault.Cut? then (if fault.onlyNewlineMissing then Unterminated else Broken) else Clean)
    else Broken
  }

  function ShapeAfter(writes: seq<WriteFault>): Shape {
    if writes == [] then Clean else Reshaped(ShapeAfter(writes[..|writes| - 1]), writes[|writes| - 1])
  }

  lemma LandingShape(file: Log<Entry>, e: Entry, fault: WriteFault)
    ensures ShapeOf(Landing(file, e, fault)) == Reshaped(ShapeOf(file), fault)
  {
    ReadableAfterAppend(file, e);
  }

  ghost predicate Lost(writes: seq<WriteFault>) {
    exists i :: 0 <= i < |writes| && writes[i] == Cut(true)
  }

  lemma {:induction false} IntactShape(writes: seq<WriteFault>)
    ensures Intact(writes) <==> !ShapeAfter(writes).Broken?
    ensures Intact(writes) ==> (ShapeAfter(writes).Unterminated? <==> Lost(writes))
  {
    if writes != [] {
      var init, last := writes[..|writes| - 1], writes[|writes| - 1];
      IntactShape(init);
      assert writes == init + [last];
      IntactOneMore(init, last);
      if i :| 0 <= i < |init| && init[i] == Cut(true) { assert writes[i] == Cut(true); }
    }
  }

  lemma IntactOneMore(init: seq<WriteFault>, last: WriteFault)
    ensures Intact(init + [last]) <==> Intact(init) && last != Cut(false) && (Lost(init) ==> last == NothingLanded)
  {
    var writes := init + [last];
    if Intact(writes) {
      assert writes[|init|] == last;
      forall i | 0 <= i < |init| ensures init[i] == writes[i] {}
    }
  }

  lemma RotatedEmpties(c: Config, s: Audit, env: Env)
    requires !s.unhealthy
    ensures var s' := Rotated(c, s, env);
            if s'.unhealthy then s'.file.None? || s'.file == s.file else s'.file.None? && s'.bytes == 0
  {
  }

  lemma {:induction false} AppendShape(c: Config, s: Audit, input: Input, env: Env, retry: bool)
    ensures var shape, attempt := ShapeOf(ActiveFile(s)), Attempt(c, s, input, env, retry);
            var before := if attempt.0 then Clean else shape;
            ShapeOf(ActiveFile(AppendNow(c, s, input, env, retry).0))
            == if attempt.1.Some? then Reshaped(before, attempt.1.value) else before
    decreases s.bytes
  {
    if !s.unhealthy && env.valid {
      var e := Entry(s.nextSequence, input, if retry then env.retryStamp else env.stamp);
      if s.bytes + LineBytes(c, e) <= c.maxBytes {
        LandingShape(ActiveFile(s), e, env.write);
      } else if s.bytes > 0 {
        RotatedEmpties(c, s, env);
        EmptyFile(c);
        var s1 := Rotated(c, s, env);
        if !s1.unhealthy { AppendShape(c, s1, input, env, true); }
      }
    }
  }

  lemma {:induction false} ShapeOfActive(c: Config, steps: seq<Step>)
    ensures ShapeOf(ActiveFile(After(c, steps))) == ShapeAfter(Writes(c, steps))
  {
    EmptyFile(c);
    if steps != [] {
      var init, step := steps[..|steps| - 1], steps[|steps| - 1];
      ShapeOfActive(c, init);
      if step.Append? {
        AppendShape(c, After(c, init), step.input, step.env, false);
        WritesAfterAppend(c, init, steps, step.input, step.env);
      }
    }
  }

  lemma WritesAfterAppend(c: Config, init: seq<Step>, steps: seq<Step>, input: Input, env: Env)
    requires steps != [] && init == steps[..|steps| - 1] && steps[|steps| - 1] == Append(input, env)
    ensures var attempt := Attempt(c, After(c, init), input, env, false);
            var before := if attempt.0 then Clean else ShapeAfter(Writes(c, init));
            ShapeAfter(Writes(c, steps)) == if attempt.1.Some? then Reshaped(before, attempt.1.value) else before
  {
    var attempt := Attempt(c, After(c, init), input, env, false);
    var earlier := if attempt.0 then [] else Writes(c, init);
    if attempt.1.Some? {
      assert (earlier + [attempt.1.value])[..|earlier|] == earlier;
    } else {
      assert earlier + [] == earlier;
    }
  }

  /**
   At a restart after any run the active file is given up exactly when, since it was begun, a line was
   torn or something landed behind a line that had lost its newline.
   */
  lemma GivenUpExactly(c: Config, steps: seq<Step>)
    ensures Loads(ActiveFile(After(c, steps))) <==> Intact(Writes(c, steps))
  {
    RunsConserve(c, steps);
    ShapeOfActive(c, steps);
    IntactShape(Writes(c, steps));
    LoadsWhenReadable(ActiveFile(After(c, steps)));
  }

  ghost predicate SameMemory(s: Audit, s': Audit) {
    !s'.unhealthy && s'.entries == s.entries && s'.bytes == s.bytes && s'.nextSequence == s.nextSequence && s'.file == s.file
  }

  lemma OpenedGivesBack(c: Config, s: Audit, env: Env)
    requires MemoryOk(c, s) && Numbered(Held(ActiveFile(s))) && !s.unhealthy && Loads(ActiveFile(s))
    ensures SameMemory(s, Opened(c, s, env))
  {
    LoadsWhenReadable(ActiveFile(s));
    EmptyFile(c);
  }

  /** A restart of a healthy store over a file that loads gives back the same memory. */
  lemma LoadGivesBack(c: Config, steps: seq<Step>, env: Env)
    requires !After(c, steps).unhealthy && Intact(Writes(c, steps))
    ensures SameMemory(After(c, steps), After(c, steps + [Restart(env)]))
  {
    RunsConserve(c, steps);
    GivenUpExactly(c, steps);
    AfterRestart(c, steps, env);
    OpenedGivesBack(c, After(c, steps), env);
  }

  // ------------------------------------------------------------------ what can be read

  function AllItems(past: seq<Past>): seq<Entry> {
    if past == [] then [] else AllItems(past[..|past| - 1]) + Items(past[|past| - 1].file)
  }

  lemma {:induction false} ReadablePast(past: seq<Past>)
    requires forall i :: 0 <= i < |past| ==> Readable(past[i].file)
    ensures AllItems(past) == AllHeld(past)
  {
    if past != [] {
      ReadablePast(past[..|past| - 1]);
      HeldOfReadable(past[|past| - 1].file);
    }
  }

  lemma {:induction false} AllReturned(landed: seq<Landed>)
    requires forall i :: 0 <= i < |landed| ==> landed[i].returned
    ensures EntriesOf(landed) == Returned(landed)
  {
    if landed != [] { AllReturned(landed[..|landed| - 1]); }
  }

  /** While every file is readable and every write that landed was returned: archives, then the active file, read back as all the returned entries. */
  lemma DiskReadsBack(c: Config, steps: seq<Step>)
    requires var s := After(c, steps);
             && (forall i :: 0 <= i < |s.past| ==> Readable(s.past[i].file)) && Readable(ActiveFile(s))
             && (forall i :: 0 <= i < |s.landed| ==> s.landed[i].returned)
    ensures var s := After(c, steps);
            && AllItems(s.past) + Items(ActiveFile(s)) == Returned(s.landed)
            && Loads(ActiveFile(s)) && (forall i :: 0 <= i < |s.past| ==> Loads(s.past[i].file))
  {
    RunsConserve(c, steps);
    var s := After(c, steps);
    ReadablePast(s.past);
    HeldOfReadable(ActiveFile(s));
    AllReturned(s.landed);
    LoadsWhenReadable(ActiveFile(s));
    forall i | 0 <= i < |s.past| ensures Loads(s.past[i].file) {
      assert PastOk(s.past[i]);
      LoadsWhenReadable(s.past[i].file);
    }
  }

  // ------------------------------------------------------------------ what is pruned

  /** Every file that is not an archive segment older than the maximum age at time t is still there. */
  ghost predicate YoungKept(c: Config, past: seq<Past>, kept: set<nat>, t: int) {
    forall i :: 0 <= i < |past| && (past[i].Sealed? ==> past[i].rotatedAt >= t - c.maxAge) ==> i in kept
  }

  function ClockOf(step: Step): Option<int> {
    if step.Close? then None else Some(step.env.pruneAt)
  }

  predicate ClockUpTo(steps: seq<Step>, t: int) {
    forall i :: 0 <= i < |steps| ==> ClockOf(steps[i]).Some? ==> ClockOf(steps[i]).value <= t
  }

  lemma PrunedKeepsYoung(c: Config, s: Audit, env: Env, t: int)
    requires YoungKept(c, s.past, s.kept, t) && env.pruneAt <= t
    ensures YoungKept(c, s.past, Pruned(c, s, env).kept, t)
  {
  }

  lemma PutAwayKeepsYoung(c: Config, s: Audit, p: Past, t: int)
    requires YoungKept(c, s.past, s.kept, t)
    ensures YoungKept(c, PutAway(s, p).past, PutAway(s, p).kept, t)
  {
    var past := s.past + [p];
    forall i | 0 <= i < |past| && (past[i].Sealed? ==> past[i].rotatedAt >= t - c.maxAge) ensures i in s.kept + {|s.past|} {
      if i < |s.past| { assert past[i] == s.past[i]; }
    }
  }

  lemma RotatedKeepsYoung(c: Config, s: Audit, env: Env, t: int)
    requires YoungKept(c, s.past, s.kept, t) && env.pruneAt <= t
    ensures YoungKept(c, Rotated(c, s, env).past, Rotated(c, s, env).kept, t)
  {
    if s.file.None? {
      PrunedKeepsYoung(c, Emptied(s), env, t);
    } else if !env.renameFails {
      var sealed := PutAway(s, Sealed(s.file.value, env.rotatedAt));
      PutAwayKeepsYoung(c, s, Sealed(s.file.value, env.rotatedAt), t);
      PrunedKeepsYoung(c, if env.syncFails then sealed.(unhealthy := true) else sealed, env, t);
    }
  }

  lemma {:induction false} AppendKeepsYoung(c: Config, s: Audit, input: Input, env: Env, retry: bool, t: int)
    requires YoungKept(c, s.past, s.kept, t) && env.pruneAt <= t
    ensures var s' := AppendNow(c, s, input, env, retry).0; YoungKept(c, s'.past, s'.kept, t)
    decreases s.bytes
  {
    if !s.unhealthy && env.valid {
      var e := Entry(s.nextSequence, input, if retry then env.retryStamp else env.stamp);
      if s.bytes + LineBytes(c, e) > c.maxBytes && s.bytes > 0 {
        RotatedEmpties(c, s, env);
        RotatedKeepsYoung(c, s, env, t);
        var s1 := Rotated(c, s, env);
        if !s1.unhealthy { AppendKeepsYoung(c, s1, input, env, true, t); }
      }
    }
  }

  lemma OpenedKeepsYoung(c: Config, s: Audit, env: Env, t: int)
    requires YoungKept(c, s.past, s.kept, t) && env.pruneAt <= t
    ensures YoungKept(c, Opened(c, s, env).past, Opened(c, s, env).kept, t)
  {
    var p := Pruned(c, Emptied(s).(unhealthy := false), env);
    PrunedKeepsYoung(c, Emptied(s).(unhealthy := false), env, t);
    if s.file.Some? { PutAwayKeepsYoung(c, p, SetAside(s.file.value), t); }
  }

  /**
   After any run whose clock never went past t, every file is still there but for archive segments
   older than the maximum age at t: nothing young is pruned, and nothing that was set aside ever is.
   */
  lemma {:induction false} YoungSegmentsStay(c: Config, steps: seq<Step>, t: int)
    requires ClockUpTo(steps, t)
    ensures YoungKept(c, After(c, steps).past, After(c, steps).kept, t)
  {
    if steps != [] {
      var init, step := steps[..|steps| - 1], steps[|steps| - 1];
      YoungSegmentsStay(c, init, t);
      assert ClockOf(step).Some? ==> ClockOf(step).value <= t;
      match step
      case Append(input, env) => AppendKeepsYoung(c, After(c, init), input, env, false, t);
      case Close =>
      case Restart(env) => OpenedKeepsYoung(c, After(c, init), env, t);
    }
  }

  lemma OpenedPrunes(c: Config, w: Audit, env: Env, i: nat)
    requires PastKept(w.past, w.kept) && env.unlinkFails == {} && i in Opened(c, w, env).kept
    ensures i < |Opened(c, w, env).past|
    ensures Opened(c, w, env).past[i].Sealed? ==> Opened(c, w, env).past[i].rotatedAt >= env.pruneAt - c.maxAge
  {
    if i < |w.past| { assert Opened(c, w, env).past[i] == w.past[i]; }
  }

  ghost predicate KeptExactly(c: Config, s: Audit, t: int) {
    forall i :: i in s.kept <==> 0 <= i < |s.past| && (s.past[i].Sealed? ==> s.past[i].rotatedAt >= t - c.maxAge)
  }

  /** And right after a restart at t whose deletions all work, exactly those are gone. */
  lemma RestartPrunesExactly(c: Config, steps: seq<Step>, env: Env)
    requires ClockUpTo(steps, env.pruneAt) && env.unlinkFails == {}
    ensures KeptExactly(c, After(c, steps + [Restart(env)]), env.pruneAt)
  {
    RunsConserve(c, steps);
    AfterRestart(c, steps, env);
    YoungSegmentsStay(c, steps, env.pruneAt);
    OpenedKeepsYoung(c, After(c, steps), env, env.pruneAt);
    var s := Opened(c, After(c, steps), env);
    forall i | i in s.kept ensures i < |s.past| && (s.past[i].Sealed? ==> s.past[i].rotatedAt >= env.pruneAt - c.maxAge) {
      OpenedPrunes(c, After(c, steps), env, i);
    }
  }

  // ------------------------------------------------------------------ the latch

  predicate NoRestart(steps: seq<Step>) {
    forall i :: 0 <= i < |steps| ==> !steps[i].Restart?
  }

  function From(c: Config, s: Audit, steps: seq<Step>): Audit {
    if steps == [] then s else Apply(c, From(c, s, steps[..|steps| - 1]), steps[|steps| - 1])
  }

  /** After one failed write (or a close), nothing is appended until the process restarts. */
  lemma {:induction false} LatchHolds(c: Config, s: Audit, steps: seq<Step>, input: Input, env: Env)
    requires s.unhealthy && NoRestart(steps)
    ensures From(c, s, steps) == s
    ensures AppendNow(c, From(c, s, steps), input, env, false) == (s, Unavailable)
  {
    if steps != [] {
      LatchHolds(c, s, steps[..|steps| - 1], input, env);
      assert !steps[|steps| - 1].Restart?;
    }
  }

  /** A failed write always latches. */
  lemma {:induction false} FailedWriteLatches(c: Config, s: Audit, input: Input, env: Env, retry: bool)
    ensures AppendNow(c, s, input, env, retry).1.Unavailable? ==> AppendNow(c, s, input, env, retry).0.unhealthy
    decreases s.bytes
  {
    if !s.unhealthy && env.valid {
      var e := Entry(s.nextSequence, input, if retry then env.retryStamp else env.stamp);
      if s.bytes + LineBytes(c, e) > c.maxBytes && s.bytes > 0 {
        var s1 := Rotated(c, s, env);
        if !s1.unhealthy { FailedWriteLatches(c, s1, input, env, true); }
      }
    }
  }

  // ------------------------------------------------------------------ a returned entry that cannot be read

  /**
   A file that loads keeps loading after the next append exactly when it ended in a newline. One whose
   last append lost only its newline is accepted, the next entry is written and returned, and both end
   up on one line that no later load accepts.
   */
  lemma AppendAfterLoadIsReadable(file: Log<Entry>, e: Entry)
    requires Loads(file) && e.sequence == |Items(file)|
    ensures Loads(LineLog.Appended(file, e)) <==> file.tail.Terminated?
  {
    ReadableAfterAppend(file, e);
    ItemsOfAppended(file, e);
  }

  function Plain(write: WriteFault): Env {
    Env(true, 1, 1, 0, false, false, 0, {}, false, write)
  }

  /** The run: an append that loses its newline, a restart, an append that is returned, a restart. */
  function LosingRun(): seq<Step> {
    [Append(7, Plain(Cut(true))), Restart(Plain(NoFault)), Append(8, Plain(NoFault)), Restart(Plain(NoFault))]
  }

  const ROOMY: Config := Config(1000, 10, e => 5)

  const FIRST := Entry(0, 7, 1)
  const SECOND := Entry(1, 8, 1)

  function CutFile(): Log<Entry> { Log([], CutShort(FIRST)) }
  function GluedFile(): Log<Entry> { Log([Garbage([FIRST, SECOND])], Terminated) }

  /** The states the run goes through. */
  function LosingStates(): seq<Audit> {
    [ Audit([], 0, 0, true, Some(CutFile()), [], {}, [Landed(FIRST, false)]),
      Audit([FIRST], 5, 1, false, Some(CutFile()), [], {}, [Landed(FIRST, false)]),
      Audit([FIRST, SECOND], 11, 2, false, Some(GluedFile()), [], {}, [Landed(FIRST, false), Landed(SECOND, true)]),
      Audit([], 0, 0, false, None, [SetAside(GluedFile())], {0}, [Landed(FIRST, false), Landed(SECOND, true)]) ]
  }

  lemma LosingAppends()
    ensures Apply(ROOMY, FRESH, LosingRun()[0]) == LosingStates()[0]
    ensures Apply(ROOMY, LosingStates()[1], LosingRun()[2]) == LosingStates()[2]
  {
    assert TornAppend(NO_FILE, FIRST, true) == CutFile();
    assert [FIRST] + [SECOND] == [FIRST, SECOND];
    assert LineLog.Appended(CutFile(), SECOND).lines == GluedFile().lines;
    assert [Landed(FIRST, false)] + [Landed(SECOND, true)] == [Landed(FIRST, false), Landed(SECOND, true)];
  }

  lemma CutFileLoads()
    ensures Loads(CutFile()) && Items(CutFile()) == [FIRST] && FileBytes(ROOMY, CutFile()) == 5
  {
    assert [FIRST][..0] == [];
  }

  lemma GluedFileHolds()
    ensures !Loads(GluedFile()) && Items(GluedFile()) == [] && Held(GluedFile()) == [FIRST, SECOND]
  {
    assert !GluedFile().lines[0].Whole?;
    assert GluedFile().lines[..0] == [];
  }

  lemma LosingRestarts()
    ensures Apply(ROOMY, LosingStates()[0], LosingRun()[1]) == LosingStates()[1]
    ensures Apply(ROOMY, LosingStates()[2], LosingRun()[3]) == LosingStates()[3]
  {
    CutFileLoads();
    GluedFileHolds();
    var env, past := Plain(NoFault), [SetAside(GluedFile())];
    assert Expired(ROOMY, [], env.pruneAt) == {} && [] + past == past && {} + {0} == {0};
    assert {} - ({} - env.unlinkFails) == {};
  }

  lemma LosingRunEnds()
    ensures After(ROOMY, LosingRun()) == LosingStates()[3]
  {
    var c, r := ROOMY, LosingRun();
    assert r[..1][..0] == [] && r[..2][..1] == r[..1] && r[..3][..2] == r[..2];
    LosingAppends();
    LosingRestarts();
    assert After(c, r[..1]) == LosingStates()[0];
    assert After(c, r[..2]) == LosingStates()[1];
    assert After(c, r[..3]) == LosingStates()[2];
  }

  /** The second entry was returned, and after the restart no entry can be read; the file is set aside. */
  lemma ReturnedEntryCanBeLost()
    ensures var s := After(ROOMY, LosingRun());
            && Returned(s.landed) == [SECOND] && s.entries == [] && s.past == [SetAside(GluedFile())]
            && Held(GluedFile()) == [FIRST, SECOND] && AllItems(s.past) == []
  {
    LosingRunEnds();
    GluedFileHolds();
    var landed := LosingStates()[3].landed;
    assert landed[..1] == [Landed(FIRST, false)] && landed[..1][..0] == [];
    assert Returned(landed[..1]) == [] && [] + [SECOND] == [SECOND];
    assert LosingStates()[3].past[..0] == [];
  }

  // ------------------------------------------------------------------ reading pages

  datatype Page = Page(entries: seq<Entry>, nextCursor: Option<nat>)

  function FirstAfter(entries: seq<Entry>, after: int, from: nat): (i: nat)
    requires from <= |entries|
    ensures from <= i <= |entries|
    ensures i < |entries| ==> entries[i].sequence > after
    ensures forall k :: from <= k < i ==> entries[k].sequence <= after
    decreases |entries| - from
  {
    if from == |entries| || entries[from].sequence > after then from else FirstAfter(entries, after, from + 1)
  }

  /** `list`: a cursor that is not a number is given as a negative one and yields an empty page. */
  function ListPage(entries: seq<Entry>, cursor: Option<int>, limit: nat): Page {
    if cursor.Some? && (cursor.value < 0 || FirstAfter(entries, cursor.value, 0) == |entries|) then Page([], None) else
      var start := if cursor.Some? then FirstAfter(entries, cursor.value, 0) else 0;
      var end := Min(start + limit, |entries|);
      var page := entries[start..end];
      Page(page, if page != [] && end < |entries| then Some(page[|page| - 1].sequence) else None)
  }

  function CursorAt(start: nat): Option<int> {
    if start == 0 then None else Some(start - 1)
  }

  lemma PageAt(entries: seq<Entry>, start: nat, limit: nat)
    requires Numbered(entries) && start <= |entries| && limit >= 1
    ensures var end := Min(start + limit, |entries|);
            ListPage(entries, CursorAt(start), limit) == Page(entries[start..end], if end < |entries| then Some(end - 1) else None)
  {
    if start > 0 {
      var i := FirstAfter(entries, start - 1, 0);
      assert i < |entries| ==> entries[i].sequence == i;
      assert start < |entries| ==> entries[start].sequence == start;
      assert i == start;
    }
    var end := Min(start + limit, |entries|);
    if end < |entries| { assert entries[start..end][end - start - 1] == entries[end - 1]; }
  }

  lemma SliceSplits(entries: seq<Entry>, start: nat, end: nat)
    requires start <= end <= |entries|
    ensures entries[start..] == entries[start..end] + entries[end..]
  {
  }

  /** What a client collects by following cursors from `start` entries on to the last page: every entry once, in order. */
  function FollowPages(entries: seq<Entry>, start: nat, limit: nat): (all: seq<Entry>)
    requires Numbered(entries) && start <= |entries| && limit >= 1
    ensures all == entries[start..]
    decreases |entries| - start
  {
    var end := Min(start + limit, |entries|);
    PageAt(entries, start, limit);
    SliceSplits(entries, start, end);
    var page := ListPage(entries, CursorAt(start), limit);
    assert page.entries == entries[start..end] && (page.nextCursor.None? <==> end == |entries|);
    if page.nextCursor.None? then page.entries
    else page.entries + FollowPages(entries, page.nextCursor.value + 1, limit)
  }

  // ------------------------------------------------------------------ the class

  /** The load loop: the parsed entries, or nothing as soon as one line is wrong. */
  method LoadLines(file: Log<Entry>) returns (ok: bool, parsed: seq<Entry>)
    ensures ok <==> Loads(file)
    ensures ok ==> parsed == Items(file)
  {
    parsed := [];
    var index := 0;
    while index < |file.lines|
      invariant index <= |file.lines| && |parsed| == index
      invariant forall i :: 0 <= i < index ==> file.lines[i].Whole?
      invariant parsed == LineItems(file.lines[..index]) && Numbered(parsed)
    {
      assert file.lines[..index + 1][..index] == file.lines[..index];
      var line := file.lines[index];
      if !line.Whole? { return false, []; }
      if line.item.sequence != index {
        NumberAt(file, index);
        return false, [];
      }
      parsed := parsed + [line.item];
      index := index + 1;
    }
    assert file.lines[..index] == file.lines;
    if file.tail.Fragment? { return false, []; }
    if file.tail.CutShort? {
      assert Items(file)[index] == file.tail.item;
      if file.tail.item.sequence != index { return false, []; }
      parsed := parsed + [file.tail.item];
    }
    return true, parsed;
  }

  /** In a readable file the i-th record is the i-th line's. */
  lemma NumberAt(file: Log<Entry>, index: nat)
    requires index < |file.lines| && file.lines[index].Whole?
    ensures Loads(file) ==> file.lines[index].item.sequence == index
  {
    if Loads(file) {
      ItemAt(file.lines, index);
      assert Items(file)[index] == file.lines[index].item;
    }
  }

  lemma {:induction false} ItemAt(lines: seq<Line<Entry>>, index: nat)
    requires index < |lines| && forall i :: 0 <= i < |lines| ==> lines[i].Whole?
    ensures |LineItems(lines)| == |lines| && LineItems(lines)[index] == lines[index].item
  {
    if |lines| > 1 {
      ItemAt(lines[..|lines| - 1], if index < |lines| - 1 then index else 0);
    } else {
      assert LineItems(lines[..0]) == [];
    }
  }

  class AuditStore {
    const config: Config
    var entries: seq<Entry>
    var bytes: nat
    var nextSequence: nat
    var unhealthy: bool
    var file: Option<Log<Entry>>
    var past: seq<Past>
    var kept: set<nat>
    ghost var landed: seq<Landed>

    ghost function State(): Audit
      reads this
    {
      Audit(entries, bytes, nextSequence, unhealthy, file, past, kept, landed)
    }

    constructor (config: Config)
      ensures State() == FRESH && this.config == config
    {
      this.config := config;
      entries, bytes, nextSequence, unhealthy, file, past, kept, landed := [], 0, 0, false, None, [], {}, [];
    }

    /** Starting again over what is on disk. */
    method Open(env: Env)
      modifies this
      ensures State() == Opened(config, old(State()), env)
    {
      entries, nextSequence, bytes, unhealthy := [], 0, 0, false;
      PruneExpiredSegments(env);
      if file.None? { return; }
      var ok, parsed := LoadLines(file.value);
      if !ok {
        if env.quarantineFails {
          unhealthy := true;
        } else {
          past, kept, file := past + [SetAside(file.value)], kept + {|past|}, None;
        }
        return;
      }
      entries, nextSequence := parsed, |parsed|;
      bytes := FileBytes(config, file.value);
    }

    method AppendEntry(input: Input, env: Env, retry: bool) returns (outcome: Outcome)
      modifies this
      ensures (State(), outcome) == AppendNow(config, old(State()), input, env, retry)
      decreases bytes
    {
      if unhealthy { return Unavailable; }
      if !env.valid { return Rejected; }
      var entry := Entry(nextSequence, input, if retry then env.retryStamp else env.stamp);
      var lineBytes := config.size(entry) + 1;
      if bytes + lineBytes > config.maxBytes {
        if bytes == 0 { return TooLarge; }
        Rotate(env);
        if unhealthy { return Unavailable; }
        outcome := AppendEntry(input, env, true);
        return;
      }
      var active := if file.Some? then file.value else NO_FILE;
      match env.write {
        case NoFault =>
          file := Some(LineLog.Appended(active, entry));
          entries := entries + [entry];
          nextSequence := nextSequence + 1;
          bytes := bytes + lineBytes;
          landed := landed + [Landed(entry, true)];
          return Appended(entry);
        case NothingLanded =>
        case EverythingLanded =>
          file := Some(LineLog.Appended(active, entry));
          landed := landed + [Landed(entry, false)];
        case Cut(only) =>
          file := Some(TornAppend(active, entry, only));
          if only { landed := landed + [Landed(entry, false)]; }
      }
      unhealthy := true;
      return Unavailable;
    }

    method Rotate(env: Env)
      modifies this
      ensures State() == Rotated(config, old(State()), env)
      ensures unhealthy || bytes == 0
    {
      if file.Some? {
        if env.renameFails {
          unhealthy := true;
          return;
        }
        past, kept, file := past + [Sealed(file.value, env.rotatedAt)], kept + {|past|}, None;
        entries, nextSequence, bytes := [], 0, 0;
        if env.syncFails { unhealthy := true; }
      } else {
        entries, nextSequence, bytes := [], 0, 0;
      }
      PruneExpiredSegments(env);
    }

    /** Deletes every kept segment that is too old, one at a time. */
    method PruneExpiredSegments(env: Env)
      modifies this`kept
      ensures kept == Pruned(config, old(State()), env).kept
    {
      var cutoff := env.pruneAt - config.maxAge;
      var before := kept;
      for i := 0 to |past|
        invariant kept == before - set k | 0 <= k < i && past[k].Sealed? && past[k].rotatedAt < cutoff && k !in env.unlinkFails
      {
        if past[i].Sealed? && past[i].rotatedAt < cutoff && i !in env.unlinkFails { kept := kept - {i}; }
      }
    }

    method Close()
      modifies this`unhealthy
      ensures unhealthy
    {
      unhealthy := true;
    }
  }
}
