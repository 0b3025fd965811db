/**
 Two-phase eviction of session lineages: rename into the trash, write the tombstone, delete the trashed
 copy. A crash may come between any two of these, inside the deletion, and during the recovery at the
 next startup. A lineage's content is left abstract.
 */
module LineageEviction {
  import opened Basics

  /** A trash entry's name holds the root id and a unique tag. */
  datatype TrashName = TrashName(root: nat, tag: nat)

  /** A lineage directory: its whole content, directories without a record yet, or half deleted. */
  datatype Copy<T> = Whole(tree: T) | Bare | Partial

  datatype Disk<T> = Disk(
    lineages: map<nat, Copy<T>>, trash: map<TrashName, Copy<T>>, tombstones: set<nat>, unrestorable: set<TrashName>)

  datatype Process =
    | Down
    | Starting
    | Running
    | Creating(root: nat)
    | Evicting(name: TrashName)
    | Cleaning(name: TrashName)

  datatype State<T> = State(disk: Disk<T>, process: Process)

  datatype Step<T> =
    | Crash
    | Boot
    | RecoverOne(name: TrashName)
    | RecoverHalf(name: TrashName)
    | DropBare(root: nat)
    | FinishStartup
    | MakeDirs(root: nat)
    | Put(root: nat, tree: T)
    | Rename(root: nat, tag: nat)
    | Commit
    | DeleteHalf
    | Delete

  // ------------------------------------------------------------------ the store's steps

  function Roots<T>(trash: map<TrashName, Copy<T>>): set<nat> {
    set n | n in trash :: n.root
  }

  predicate Used<T>(d: Disk<T>, root: nat) {
    root in d.lineages || root in d.tombstones || root in Roots(d.trash)
  }

  /** One entry of the loop in `#recoverInterruptedEvictions`. */
  function RecoveredOne<T>(d: Disk<T>, n: TrashName): Disk<T> {
    if n !in d.trash then d
    else if n.root in d.tombstones then d.(trash := d.trash - {n})
    else if n.root in d.lineages then d.(trash := d.trash - {n}, unrestorable := d.unrestorable + {n})
    else d.(trash := d.trash - {n}, lineages := d.lineages[n.root := d.trash[n]])
  }

  predicate NoBare<T>(lineages: map<nat, Copy<T>>) {
    forall r :: r in lineages ==> lineages[r] != Bare
  }

  function Next<T>(s: State<T>, step: Step<T>): State<T> {
    var d := s.disk;
    match step
    case Crash => s.(process := Down)
    case Boot => if s.process == Down then s.(process := Starting) else s
    case RecoverOne(n) => if s.process == Starting then s.(disk := RecoveredOne(d, n)) else s
    case RecoverHalf(n) =>
      if s.process == Starting && n in d.trash && n.root in d.tombstones then s.(disk := d.(trash := d.trash[n := Partial])) else s
    case DropBare(r) =>
      if s.process == Starting && r in d.lineages && d.lineages[r] == Bare then s.(disk := d.(lineages := d.lineages - {r})) else s
    case FinishStartup => if s.process == Starting && d.trash == map[] && NoBare(d.lineages) then s.(process := Running) else s
    case MakeDirs(r) =>
      if s.process == Running && !Used(d, r) then State(d.(lineages := d.lineages[r := Bare]), Creating(r)) else s
    case Put(r, t) =>
      if (s.process == Running && r in d.lineages) || s.process == Creating(r)
      then State(d.(lineages := d.lineages[r := Whole(t)]), Running) else s
    case Rename(r, tag) =>
      if s.process == Running && r in d.lineages then
        var n := TrashName(r, tag);
        State(d.(lineages := d.lineages - {r}, trash := d.trash[n := d.lineages[r]]), Evicting(n))
      else s
    case Commit =>
      if s.process.Evicting? then State(d.(tombstones := d.tombstones + {s.process.name.root}), Cleaning(s.process.name)) else s
    case DeleteHalf =>
      if s.process.Cleaning? && s.process.name in d.trash then s.(disk := d.(trash := d.trash[s.process.name := Partial])) else s
    case Delete => if s.process.Cleaning? then State(d.(trash := d.trash - {s.process.name}), Running) else s
  }

  // ------------------------------------------------------------------ the simple store

  /** A store without files: putting a tree is one step, and so is evicting a root for good. */
  datatype Simple<T> = Simple(live: map<nat, T>, evicted: set<nat>)

  function SimpleNext<T>(a: Simple<T>, s: State<T>, step: Step<T>): Simple<T> {
    match step
    case Put(r, t) =>
      if (s.process == Running && r in s.disk.lineages) || s.process == Creating(r) then a.(live := a.live[r := t]) else a
    case Commit =>
      if s.process.Evicting? then Simple(a.live - {s.process.name.root}, a.evicted + {s.process.name.root}) else a
    case _ => a
  }

  function After<T>(steps: seq<Step<T>>): State<T> {
    if steps == [] then State(Disk(map[], map[], {}, {}), Running) else Next(After(steps[..|steps| - 1]), steps[|steps| - 1])
  }

  function SimpleAfter<T>(steps: seq<Step<T>>): Simple<T> {
    if steps == [] then Simple(map[], {})
    else SimpleNext(SimpleAfter(steps[..|steps| - 1]), After(steps[..|steps| - 1]), steps[|steps| - 1])
  }

  // ------------------------------------------------------------------ how the two agree

  ghost predicate LineagesAgree<T>(d: Disk<T>, live: map<nat, T>) {
    forall r :: r in d.lineages ==>
      r !in d.tombstones && r !in Roots(d.trash)
      && (if d.lineages[r] == Bare then r !in live else r in live && d.lineages[r] == Whole(live[r]))
  }

  ghost predicate TrashAgrees<T>(d: Disk<T>, live: map<nat, T>) {
    forall n :: n in d.trash && n.root !in d.tombstones ==> n.root in live && d.trash[n] == Whole(live[n.root])
  }

  ghost predicate OneEntryPerRoot<T>(trash: map<TrashName, Copy<T>>) {
    forall n, m :: n in trash && m in trash && n.root == m.root ==> n == m
  }

  /** Every live lineage is somewhere: in place, or in the trash without a tombstone. */
  ghost predicate AllKept<T>(d: Disk<T>, live: map<nat, T>) {
    forall r :: r in live ==> r !in d.tombstones && (r in d.lineages || r in Roots(d.trash))
  }

  ghost predicate PhaseOk<T>(d: Disk<T>, p: Process) {
    match p
    case Down => true
    case Starting => true
    case Running => d.trash == map[] && NoBare(d.lineages)
    case Creating(r) => d.trash == map[] && forall q :: q in d.lineages && d.lineages[q] == Bare ==> q == r
    case Evicting(n) => d.trash.Keys == {n} && NoBare(d.lineages) && n.root !in d.tombstones
    case Cleaning(n) => d.trash.Keys == {n} && NoBare(d.lineages) && n.root in d.tombstones
  }

  ghost predicate Agrees<T>(s: State<T>, a: Simple<T>) {
    && LineagesAgree(s.disk, a.live) && TrashAgrees(s.disk, a.live) && AllKept(s.disk, a.live)
    && OneEntryPerRoot(s.disk.trash) && s.disk.unrestorable == {} && s.disk.tombstones == a.evicted
    && PhaseOk(s.disk, s.process)
    && (s.process.Creating? ==> s.process.root !in s.disk.tombstones)
  }

  lemma RootsWithout<T>(trash: map<TrashName, Copy<T>>, n: TrashName)
    requires OneEntryPerRoot(trash) && n in trash
    ensures Roots(trash - {n}) == Roots(trash) - {n.root}
  {
  }

  lemma RootsReplaced<T>(trash: map<TrashName, Copy<T>>, n: TrashName, c: Copy<T>)
    ensures Roots(trash[n := c]) == Roots(trash) + {n.root}
  {
    assert n in trash[n := c];
  }

  /** Recovering one entry keeps the agreement, and never meets the unrestorable case. */
  lemma RecoverOneAgrees<T>(s: State<T>, a: Simple<T>, n: TrashName)
    requires Agrees(s, a) && s.process == Starting
    ensures Agrees(Next(s, RecoverOne(n)), a)
  {
    if n in s.disk.trash {
      RootsWithout(s.disk.trash, n);
      assert n.root in Roots(s.disk.trash);
    }
  }

  lemma HalfAgrees<T>(s: State<T>, a: Simple<T>, n: TrashName)
    requires Agrees(s, a) && n in s.disk.trash && n.root in s.disk.tombstones
    ensures Agrees(s.(disk := s.disk.(trash := s.disk.trash[n := Partial])), a)
  {
    RootsReplaced(s.disk.trash, n, Partial);
    assert s.disk.trash[n := Partial].Keys == s.disk.trash.Keys;
  }

  lemma PutAgrees<T>(s: State<T>, a: Simple<T>, r: nat, t: T)
    requires Agrees(s, a)
    ensures Agrees(Next(s, Put(r, t)), SimpleNext(a, s, Put(r, t)))
  {
  }

  lemma MakeDirsAgrees<T>(s: State<T>, a: Simple<T>, r: nat)
    requires Agrees(s, a)
    ensures Agrees(Next(s, MakeDirs(r)), a)
  {
    assert r in a.live ==> r in s.disk.lineages || r in Roots(s.disk.trash);
  }

  lemma RenameAgrees<T>(s: State<T>, a: Simple<T>, r: nat, tag: nat)
    requires Agrees(s, a)
    ensures Agrees(Next(s, Rename(r, tag)), a)
  {
    if s.process == Running && r in s.disk.lineages {
      RootsReplaced(s.disk.trash, TrashName(r, tag), s.disk.lineages[r]);
    }
  }

  lemma CommitAgrees<T>(s: State<T>, a: Simple<T>)
    requires Agrees(s, a)
    ensures Agrees(Next(s, Commit), SimpleNext(a, s, Commit))
  {
    if s.process.Evicting? {
      var n := s.process.name;
      assert n in s.disk.trash;
      assert n.root in Roots(s.disk.trash);
    }
  }

  lemma DeleteAgrees<T>(s: State<T>, a: Simple<T>)
    requires Agrees(s, a)
    ensures Agrees(Next(s, Delete), a)
  {
    if s.process.Cleaning? {
      assert s.process.name in s.disk.trash;
      RootsWithout(s.disk.trash, s.process.name);
    }
  }

  lemma StepAgrees<T>(s: State<T>, a: Simple<T>, step: Step<T>)
    requires Agrees(s, a)
    ensures Agrees(Next(s, step), SimpleNext(a, s, step))
  {
    match step
    case RecoverOne(n) => if s.process == Starting { RecoverOneAgrees(s, a, n); }
    case RecoverHalf(n) => if n in s.disk.trash && n.root in s.disk.tombstones { HalfAgrees(s, a, n); }
    case Put(r, t) => PutAgrees(s, a, r, t);
    case MakeDirs(r) => MakeDirsAgrees(s, a, r);
    case Rename(r, tag) => RenameAgrees(s, a, r, tag);
    case Commit => CommitAgrees(s, a);
    case DeleteHalf => if s.process.Cleaning? { HalfAgrees(s, a, s.process.name); }
    case Delete => DeleteAgrees(s, a);
    case _ =>
  }

  /** Every run of the crash-prone store, with restarts, agrees with the simple store at every step. */
  lemma {:induction false} RunsAgree<T>(steps: seq<Step<T>>)
    ensures Agrees(After(steps), SimpleAfter(steps))
  {
    if steps != [] {
      RunsAgree(steps[..|steps| - 1]);
      StepAgrees(After(steps[..|steps| - 1]), SimpleAfter(steps[..|steps| - 1]), steps[|steps| - 1]);
    }
  }

  /**
   Eviction is crash-atomic: whenever a startup is through, each lineage ever stored is whole in its
   place without a tombstone, or gone with one; the trash is empty and no entry was ever unrestorable.
   */
  lemma EvictionIsAtomic<T>(steps: seq<Step<T>>)
    ensures After(steps).disk.unrestorable == {}
    ensures var d, a := After(steps).disk, SimpleAfter(steps);
            After(steps).process == Running ==>
              && d.trash == map[] && d.tombstones == a.evicted && d.lineages.Keys == a.live.Keys
              && (forall r :: r in a.live ==> d.lineages[r] == Whole(a.live[r]))
              && d.lineages.Keys !! d.tombstones
  {
    RunsAgree(steps);
    var d, a := After(steps).disk, SimpleAfter(steps);
    if After(steps).process == Running {
      forall r ensures r in d.lineages <==> r in a.live {
        if r in a.live { assert r in d.lineages || r in Roots(d.trash); }
      }
    }
  }

  lemma TombstoneStaysOneStep<T>(s: State<T>, a: Simple<T>, step: Step<T>, root: nat)
    requires Agrees(s, a) && root in s.disk.tombstones
    ensures root in Next(s, step).disk.tombstones
  {
    StepAgrees(s, a, step);
  }

  /** A committed eviction is final: the root is never seen again. */
  lemma {:induction false} EvictedStaysGone<T>(earlier: seq<Step<T>>, later: seq<Step<T>>, root: nat)
    requires root in After(earlier).disk.tombstones
    ensures root in After(earlier + later).disk.tombstones && root !in After(earlier + later).disk.lineages
  {
    RunsAgree(earlier + later);
    if later == [] {
      assert earlier + later == earlier;
    } else {
      var init := later[..|later| - 1];
      EvictedStaysGone(earlier, init, root);
      RunsAgree(earlier + init);
      assert (earlier + later)[..|earlier + later| - 1] == earlier + init;
      TombstoneStaysOneStep(After(earlier + init), SimpleAfter(earlier + init), later[|later| - 1], root);
    }
  }

  // ------------------------------------------------------------------ the store object

  function RecoveredAll<T>(d: Disk<T>, names: seq<TrashName>): Disk<T> {
    if names == [] then d else RecoveredOne(RecoveredAll(d, names[..|names| - 1]), names[|names| - 1])
  }

  /** Going through a listing of the trash empties it. */
  lemma {:induction false} RecoveryEmptiesTrash<T>(s: State<T>, a: Simple<T>, names: seq<TrashName>)
    requires Agrees(s, a) && s.process == Starting
    ensures Agrees(s.(disk := RecoveredAll(s.disk, names)), a)
    ensures RecoveredAll(s.disk, names).trash.Keys == s.disk.trash.Keys - (set n | n in names)
  {
    if names != [] {
      var init, last := names[..|names| - 1], names[|names| - 1];
      RecoveryEmptiesTrash(s, a, init);
      RecoverOneAgrees(s.(disk := RecoveredAll(s.disk, init)), a, last);
      assert names == init + [last];
    }
  }

  // ------------------------------------------------------------------ a startup gets through

  function From<T>(s: State<T>, steps: seq<Step<T>>): State<T> {
    if steps == [] then s else Next(From(s, steps[..|steps| - 1]), steps[|steps| - 1])
  }

  lemma {:induction false} AfterThen<T>(steps: seq<Step<T>>, more: seq<Step<T>>)
    ensures After(steps + more) == From(After(steps), more)
  {
    if more == [] {
      assert steps + more == steps;
    } else {
      assert (steps + more)[..|steps + more| - 1] == steps + more[..|more| - 1];
      AfterThen(steps, more[..|more| - 1]);
    }
  }

  lemma {:induction false} FromThen<T>(s: State<T>, a: seq<Step<T>>, b: seq<Step<T>>)
    ensures From(s, a + b) == From(From(s, a), b)
  {
    if b == [] {
      assert a + b == a;
    } else {
      assert (a + b)[..|a + b| - 1] == a + b[..|b| - 1];
      FromThen(s, a, b[..|b| - 1]);
    }
  }

  function Recoveries<T>(names: seq<TrashName>): seq<Step<T>> {
    if names == [] then [] else Recoveries(names[..|names| - 1]) + [RecoverOne(names[|names| - 1])]
  }

  function Drops<T>(roots: seq<nat>): seq<Step<T>> {
    if roots == [] then [] else Drops(roots[..|roots| - 1]) + [DropBare(roots[|roots| - 1])]
  }

  /** The steps of a startup that is not interrupted. */
  function StartupSteps<T>(names: seq<TrashName>, roots: seq<nat>): seq<Step<T>> {
    [Boot] + Recoveries(names) + Drops(roots) + [FinishStartup]
  }

  lemma OneStep<T>(s: State<T>, step: Step<T>)
    ensures From(s, [step]) == Next(s, step)
  {
    assert [step][..0] == [];
  }

  lemma {:induction false} RecoveriesAre<T>(s: State<T>, names: seq<TrashName>)
    requires s.process == Starting
    ensures From(s, Recoveries(names)) == s.(disk := RecoveredAll(s.disk, names))
  {
    if names != [] {
      var init, last := names[..|names| - 1], names[|names| - 1];
      RecoveriesAre(s, init);
      FromThen(s, Recoveries(init), [RecoverOne(last)]);
      OneStep(From(s, Recoveries(init)), RecoverOne(last));
    }
  }

  /** What was restored is whole, so nothing new is bare. */
  lemma {:induction false} RecoveredNotBare<T>(s: State<T>, a: Simple<T>, names: seq<TrashName>, r: nat)
    requires Agrees(s, a) && s.process == Starting
    requires r in RecoveredAll(s.disk, names).lineages && RecoveredAll(s.disk, names).lineages[r] == Bare
    ensures r in s.disk.lineages && s.disk.lineages[r] == Bare
  {
    if names != [] {
      var init, last := names[..|names| - 1], names[|names| - 1];
      RecoveryEmptiesTrash(s, a, init);
      var d := RecoveredAll(s.disk, init);
      assert last in d.trash && last.root !in d.tombstones ==> d.trash[last] != Bare;
      RecoveredNotBare(s, a, init, r);
    }
  }

  lemma {:induction false} DropsAre<T>(s: State<T>, roots: seq<nat>)
    requires s.process == Starting
    ensures From(s, Drops(roots)).process == Starting && From(s, Drops(roots)).disk.trash == s.disk.trash
    ensures forall r :: r in From(s, Drops(roots)).disk.lineages ==>
              r in s.disk.lineages && From(s, Drops(roots)).disk.lineages[r] == s.disk.lineages[r] && (s.disk.lineages[r] == Bare ==> r !in roots)
  {
    if roots != [] {
      var init, last := roots[..|roots| - 1], roots[|roots| - 1];
      DropsAre(s, init);
      FromThen(s, Drops(init), [DropBare(last)]);
      OneStep(From(s, Drops(init)), DropBare(last));
      assert roots == init + [last];
    }
  }

  lemma StartupInTurn<T>(s: State<T>, names: seq<TrashName>, roots: seq<nat>)
    ensures From(s, StartupSteps(names, roots)) == Next(From(From(Next(s, Boot), Recoveries(names)), Drops(roots)), FinishStartup)
  {
    var a: seq<Step<T>> := [Boot];
    var b, c := a + Recoveries(names), a + Recoveries(names) + Drops(roots);
    OneStep(s, Boot);
    FromThen(s, a, Recoveries(names));
    FromThen(s, b, Drops(roots));
    FromThen(s, c, [FinishStartup]);
    OneStep(From(s, c), FinishStartup);
  }

  lemma NothingBareLeft<T>(s: State<T>, a: Simple<T>, names: seq<TrashName>, roots: seq<nat>, t: State<T>)
    requires Agrees(s, a) && s.process == Starting
    requires forall r :: r in s.disk.lineages && s.disk.lineages[r] == Bare ==> r in roots
    requires t == From(s.(disk := RecoveredAll(s.disk, names)), Drops(roots))
    ensures t.process == Starting && t.disk.trash == RecoveredAll(s.disk, names).trash && NoBare(t.disk.lineages)
  {
    var s2 := s.(disk := RecoveredAll(s.disk, names));
    DropsAre(s2, roots);
    forall r | r in t.disk.lineages ensures t.disk.lineages[r] != Bare {
      if s2.disk.lineages[r] == Bare { RecoveredNotBare(s, a, names, r); }
    }
  }

  lemma StartupRuns<T>(s: State<T>, a: Simple<T>, names: seq<TrashName>, roots: seq<nat>)
    requires Agrees(s, a) && s.process == Down
    requires s.disk.trash.Keys <= set n | n in names
    requires forall r :: r in s.disk.lineages && s.disk.lineages[r] == Bare ==> r in roots
    ensures From(s, StartupSteps(names, roots)).process == Running
  {
    var s1 := Next(s, Boot);
    StartupInTurn(s, names, roots);
    RecoveriesAre(s1, names);
    RecoveryEmptiesTrash(s1, a, names);
    NothingBareLeft(s1, a, names, roots, From(From(s1, Recoveries(names)), Drops(roots)));
    assert RecoveredAll(s1.disk, names).trash.Keys == {};
  }

  /**
   A startup always gets through: from the disk any run has left, booting, going over a listing of the
   trash, dropping the directories without a record and finishing ends with the store running.
   */
  lemma StartupGetsThrough<T>(steps: seq<Step<T>>, names: seq<TrashName>, roots: seq<nat>)
    requires After(steps).process == Down
    requires After(steps).disk.trash.Keys <= set n | n in names
    requires forall r :: r in After(steps).disk.lineages && After(steps).disk.lineages[r] == Bare ==> r in roots
    ensures After(steps + StartupSteps(names, roots)).process == Running
  {
    RunsAgree(steps);
    AfterThen(steps, StartupSteps(names, roots));
    StartupRuns(After(steps), SimpleAfter(steps), names, roots);
  }

  // ------------------------------------------------------------------ every operation takes effect

  lemma OneMore<T>(steps: seq<Step<T>>, step: Step<T>)
    ensures After(steps + [step]) == Next(After(steps), step)
    ensures SimpleAfter(steps + [step]) == SimpleNext(SimpleAfter(steps), After(steps), step)
  {
    assert (steps + [step])[..|steps|] == steps;
  }

  lemma RunningHasNoTrash<T>(steps: seq<Step<T>>)
    requires After(steps).process == Running
    ensures After(steps).disk.trash == map[] && After(steps).disk.lineages.Keys == SimpleAfter(steps).live.Keys
    ensures After(steps).disk.lineages.Keys !! After(steps).disk.tombstones
    ensures forall r :: r in SimpleAfter(steps).live ==> After(steps).disk.lineages[r] == Whole(SimpleAfter(steps).live[r])
  {
    EvictionIsAtomic(steps);
  }

  /** A new root: its directories, then its tree, and nothing else changes. */
  lemma CreationTakesEffect<T>(steps: seq<Step<T>>, r: nat, t: T)
    requires After(steps).process == Running && r !in After(steps).disk.lineages && r !in After(steps).disk.tombstones
    ensures var was, s := After(steps), After(steps + [MakeDirs(r)] + [Put(r, t)]);
            && s.process == Running && s.disk == was.disk.(lineages := was.disk.lineages[r := Whole(t)])
            && SimpleAfter(steps + [MakeDirs(r)] + [Put(r, t)]).live == SimpleAfter(steps).live[r := t]
  {
    RunningHasNoTrash(steps);
    OneMore(steps, MakeDirs(r));
    OneMore(steps + [MakeDirs(r)], Put(r, t));
    assert After(steps).disk.lineages[r := Bare][r := Whole(t)] == After(steps).disk.lineages[r := Whole(t)];
  }

  /** A crash between the two leaves a directory without a record, and the next startup drops it. */
  lemma CreationCutShort<T>(steps: seq<Step<T>>, r: nat)
    requires After(steps).process == Running && r !in After(steps).disk.lineages && r !in After(steps).disk.tombstones
    ensures var crashed := steps + [MakeDirs(r)] + [Crash];
            && After(crashed).process == Down && After(crashed).disk.lineages == After(steps).disk.lineages[r := Bare]
            && Restored(steps, crashed + StartupSteps([], [r]))
  {
    var crashed := steps + [MakeDirs(r)] + [Crash];
    RunningHasNoTrash(steps);
    OneMore(steps, MakeDirs(r));
    OneMore(steps + [MakeDirs(r)], Crash);
    RunsAgree(steps);
    StartupGetsThrough(crashed, [], [r]);
    SimpleThroughStartup(crashed, [], [r]);
    RestoredWhenSame(steps, crashed + StartupSteps([], [r]));
  }

  lemma UpdateTakesEffect<T>(steps: seq<Step<T>>, r: nat, t: T)
    requires After(steps).process == Running && r in After(steps).disk.lineages
    ensures var was, s := After(steps), After(steps + [Put(r, t)]);
            s.process == Running && s.disk == was.disk.(lineages := was.disk.lineages[r := Whole(t)])
    ensures SimpleAfter(steps + [Put(r, t)]).live == SimpleAfter(steps).live[r := t]
  {
    OneMore(steps, Put(r, t));
  }

  /** Rename, tombstone, delete: the root is gone from disk and from the simple store, and nothing else is. */
  lemma EvictionTakesEffect<T>(steps: seq<Step<T>>, r: nat, tag: nat)
    requires After(steps).process == Running && r in After(steps).disk.lineages
    ensures var end := steps + [Rename(r, tag)] + [Commit] + [Delete];
            var was, s := After(steps), After(end);
            && s.process == Running && s.disk.lineages == was.disk.lineages - {r} && s.disk.trash == map[]
            && s.disk.tombstones == was.disk.tombstones + {r}
            && SimpleAfter(end) == Simple(SimpleAfter(steps).live - {r}, SimpleAfter(steps).evicted + {r})
  {
    RunningHasNoTrash(steps);
    OneMore(steps, Rename(r, tag));
    OneMore(steps + [Rename(r, tag)], Commit);
    OneMore(steps + [Rename(r, tag)] + [Commit], Delete);
    assert map[TrashName(r, tag) := After(steps).disk.lineages[r]] - {TrashName(r, tag)} == map[];
  }

  /** Steps that neither put nor commit. */
  ghost predicate Quiet<T>(steps: seq<Step<T>>) {
    forall i :: 0 <= i < |steps| ==> !steps[i].Put? && !steps[i].Commit?
  }

  lemma {:induction false} QuietKeepsSimple<T>(steps: seq<Step<T>>, more: seq<Step<T>>)
    requires Quiet(more)
    ensures SimpleAfter(steps + more) == SimpleAfter(steps)
  {
    if more == [] {
      assert steps + more == steps;
    } else {
      var init, last := more[..|more| - 1], more[|more| - 1];
      QuietKeepsSimple(steps, init);
      assert steps + more == (steps + init) + [last];
      OneMore(steps + init, last);
    }
  }

  lemma {:induction false} RecoveriesQuiet<T>(names: seq<TrashName>)
    ensures Quiet<T>(Recoveries(names))
  {
    if names != [] { RecoveriesQuiet<T>(names[..|names| - 1]); }
  }

  lemma {:induction false} DropsQuiet<T>(roots: seq<nat>)
    ensures Quiet<T>(Drops(roots))
  {
    if roots != [] { DropsQuiet<T>(roots[..|roots| - 1]); }
  }

  lemma SimpleThroughStartup<T>(steps: seq<Step<T>>, names: seq<TrashName>, roots: seq<nat>)
    ensures SimpleAfter(steps + StartupSteps(names, roots)) == SimpleAfter(steps)
  {
    RecoveriesQuiet<T>(names);
    DropsQuiet<T>(roots);
    QuietKeepsSimple(steps, StartupSteps(names, roots));
  }

  /** The store runs again and holds exactly what it held before. */
  ghost predicate Restored<T>(steps: seq<Step<T>>, end: seq<Step<T>>) {
    && After(end).process == Running && After(end).disk.lineages == After(steps).disk.lineages
    && After(end).disk.tombstones == After(steps).disk.tombstones && After(end).disk.trash == map[]
  }

  lemma RestoredWhenSame<T>(steps: seq<Step<T>>, end: seq<Step<T>>)
    requires After(steps).process == Running && After(end).process == Running && SimpleAfter(end) == SimpleAfter(steps)
    ensures Restored(steps, end)
  {
    EvictionIsAtomic(steps);
    EvictionIsAtomic(end);
    var a, b := After(steps).disk.lineages, After(end).disk.lineages;
    assert forall r :: r in a ==> r in b && a[r] == b[r];
  }

  /** A crash after the rename and before the tombstone: the next startup brings the lineage back whole. */
  lemma CrashBeforeCommitRollsBack<T>(steps: seq<Step<T>>, r: nat, tag: nat)
    requires After(steps).process == Running && r in After(steps).disk.lineages
    ensures var crashed := steps + [Rename(r, tag)] + [Crash];
            && After(crashed).process == Down && r !in After(crashed).disk.lineages && r !in After(crashed).disk.tombstones
            && After(crashed).disk.trash == map[TrashName(r, tag) := After(steps).disk.lineages[r]]
            && Restored(steps, crashed + StartupSteps([TrashName(r, tag)], []))
  {
    var crashed, name := steps + [Rename(r, tag)] + [Crash], TrashName(r, tag);
    RunningHasNoTrash(steps);
    OneMore(steps, Rename(r, tag));
    OneMore(steps + [Rename(r, tag)], Crash);
    RunsAgree(steps);
    assert name in [name];
    StartupGetsThrough(crashed, [name], []);
    SimpleThroughStartup(crashed, [name], []);
    RestoredWhenSame(steps, crashed + StartupSteps([name], []));
  }

  /** A crash after the tombstone, also half way through the deletion: the next startup finishes the eviction. */
  lemma CrashAfterCommitCompletes<T>(steps: seq<Step<T>>, r: nat, tag: nat)
    requires After(steps).process == Running && r in After(steps).disk.lineages
    ensures var crashed := steps + [Rename(r, tag)] + [Commit] + [DeleteHalf] + [Crash];
            && After(crashed).process == Down && r in After(crashed).disk.tombstones
            && After(crashed).disk.trash == map[TrashName(r, tag) := Partial]
            && Restored(steps + [Rename(r, tag)] + [Commit] + [Delete], crashed + StartupSteps([TrashName(r, tag)], []))
  {
    var committed, name := steps + [Rename(r, tag)] + [Commit], TrashName(r, tag);
    var crashed := committed + [DeleteHalf] + [Crash];
    RunningHasNoTrash(steps);
    OneMore(steps, Rename(r, tag));
    OneMore(steps + [Rename(r, tag)], Commit);
    OneMore(committed, Delete);
    OneMore(committed, DeleteHalf);
    OneMore(committed + [DeleteHalf], Crash);
    RunsAgree(steps);
    assert name in [name];
    StartupGetsThrough(crashed, [name], []);
    SimpleThroughStartup(crashed, [name], []);
    EvictionTakesEffect(steps, r, tag);
    RestoredWhenSame(committed + [Delete], crashed + StartupSteps([name], []));
  }

  /** A crash during the recovery itself, half way through deleting a committed entry, changes nothing of that. */
  lemma RecoveryCutShort<T>(s: State<T>, name: TrashName)
    requires s.process == Starting && name in s.disk.trash && name.root in s.disk.tombstones
    ensures From(s, [RecoverHalf(name)] + [Crash]) == State(s.disk.(trash := s.disk.trash[name := Partial]), Down)
  {
    FromThen(s, [RecoverHalf(name)], [Crash]);
    OneStep(s, RecoverHalf(name));
    OneStep(Next(s, RecoverHalf(name)), Crash);
  }

  class EvictionStore<T(==)> {
    var lineages: map<nat, Copy<T>>
    var trash: map<TrashName, Copy<T>>
    var tombstones: set<nat>
    var unrestorable: set<TrashName>

    function Current(): Disk<T>
      reads this
    {
      Disk(lineages, trash, tombstones, unrestorable)
    }

    constructor ()
      ensures Current() == Disk(map[], map[], {}, {})
    {
      lineages, trash, tombstones, unrestorable := map[], map[], {}, {};
    }

    /** `#recoverInterruptedEvictions` over a listing of the trash directory. */
    method RecoverInterruptedEvictions(names: seq<TrashName>)
      modifies this
      ensures Current() == RecoveredAll(old(Current()), names)
    {
      for i := 0 to |names|
        invariant Current() == RecoveredAll(old(Current()), names[..i])
      {
        var name := names[i];
        assert names[..i + 1][..i] == names[..i];
        if name !in trash { continue; }
        if name.root in tombstones {
          trash := trash - {name};
          continue;
        }
        if name.root in lineages {
          trash, unrestorable := trash - {name}, unrestorable + {name};
          continue;
        }
        lineages := lineages[name.root := trash[name]];
        trash := trash - {name};
      }
      assert names[..|names|] == names;
    }

    /** `#evictLineage`, the disk half, without a crash. */
    method EvictLineage(root: nat, tag: nat)
      requires root in lineages
      modifies this
      ensures lineages == old(lineages) - {root} && tombstones == old(tombstones) + {root}
      ensures (TrashName(root, tag) !in old(trash) ==> trash == old(trash)) && unrestorable == old(unrestorable)
      ensures State(Current(), Running) == Next(Next(Next(State(old(Current()), Running), Rename(root, tag)), Commit), Delete)
    {
      var name := TrashName(root, tag);
      trash := trash[name := lineages[root]];
      lineages := lineages - {root};
      tombstones := tombstones + {root};
      trash := trash - {name};
    }
  }
}
