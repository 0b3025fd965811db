/**
 Admission, revocation and release of sessions.

 The daemon is one event loop, so every stretch of code without an `await` is one step. A run is any
 sequence of steps: blocks and allows of workspaces, lease acquisitions, calls of `create` with any
 outcome of the parts that can fail, the `finally` of a session's event stream, and removals.
 Session and lease ids are fresh, as the daemon mints them.
 */
module SessionAdmission {
  import opened Basics
  import opened SessionLimiter
  import opened WorkspaceLeases

  type Id = SessionLimiter.SessionId

  // ------------------------------------------------------------------ state

  /** What `create` was called with, and how the parts outside the model answered. */
  datatype Request = Request(
    id: Id,
    provider: Provider,
    workspace: Option<WorkspaceId>,
    lease: Option<Lease>,
    expectedEpoch: Option<nat>,
    providerKnown: bool,   // the registry has the provider
    launches: bool)        // recording and starting the provider both succeed

  /** What is remembered about an admitted session. */
  datatype Fact = Fact(
    provider: Provider, workspace: Option<WorkspaceId>, lease: Option<Lease>, finished: bool, removed: bool)

  datatype World = World(
    limiter: Limiter,
    leases: Leases,
    blocked: set<WorkspaceId>,
    epochs: map<WorkspaceId, nat>,
    index: Index,
    sessions: map<Id, Fact>)  // every session ever admitted

  const START: World := World(IDLE, NO_LEASES, {}, map[], Index(map[], map[]), map[])

  function Epoch(w: World, workspace: WorkspaceId): nat {
    GetOr(w.epochs, workspace, 0)
  }

  function Bumped(w: World, workspace: WorkspaceId): World {
    w.(epochs := w.epochs[workspace := Epoch(w, workspace) + 1])
  }

  function AfterBlock(w: World, workspace: WorkspaceId): World {
    Bumped(w.(blocked := w.blocked + {workspace}), workspace)
  }

  function AfterAllow(w: World, workspace: WorkspaceId): World {
    Bumped(w.(blocked := w.blocked - {workspace}), workspace)
  }

  /** The workspace index with its inverse. */
  datatype Index = Index(byWorkspace: map<WorkspaceId, set<Id>>, bySession: map<Id, WorkspaceId>)

  function Indexed(x: Index, workspace: WorkspaceId): set<Id> {
    GetOr(x.byWorkspace, workspace, {})
  }

  function WithSession(x: Index, workspace: WorkspaceId, id: Id): Index {
    Index(x.byWorkspace[workspace := Indexed(x, workspace) + {id}], x.bySession[id := workspace])
  }

  function WithoutSession(x: Index, id: Id): Index {
    if id !in x.bySession then x else
      var workspace := x.bySession[id];
      var bySession := x.bySession - {id};
      if workspace !in x.byWorkspace then Index(x.byWorkspace, bySession) else
        var rest := x.byWorkspace[workspace] - {id};
        Index(if rest == {} then x.byWorkspace - {workspace} else x.byWorkspace[workspace := rest], bySession)
  }

  // ------------------------------------------------------------------ create

  datatype Outcome =
    | Created
    | UnknownProvider
    | ForeignLease
    | Revoked
    | StaleGrant
    | LimitReached(verdict: Verdict)
    | LaunchFailed

  /** The checks of `create`, in their order. */
  function JudgeCreate(w: World, r: Request): Outcome {
    if !r.providerKnown then UnknownProvider
    else if r.lease.Some? && r.lease.value.sessionId != r.id then ForeignLease
    else if r.workspace.Some? && r.workspace.value in w.blocked then Revoked
    else if r.workspace.Some? && r.expectedEpoch.Some? && Epoch(w, r.workspace.value) != r.expectedEpoch.value then StaleGrant
    else
      var verdict := Judge(w.limiter, r.provider, r.id);
      if verdict != Admit then LimitReached(verdict)
      else if !r.launches then LaunchFailed
      else Created
  }

  /** The leases that survive the release of one session's leases. */
  function Freed(ls: Leases, id: Id): Leases {
    var own := LeasesOf(ls, id);
    Leases(map w | w in ls.byWorkspace && !(ls.byWorkspace[w].writer.Some? && ls.byWorkspace[w].writer.value.leaseId in own)
             :: ls.byWorkspace[w],
           ls.byLeaseId - own)
  }

  lemma FreedIsReleased(ls: Leases, id: Id)
    requires Exclusive(ls)
    ensures ReleasedFor(ls, id, Freed(ls, id))
  {
    var own, ls' := LeasesOf(ls, id), Freed(ls, id);
    forall l | l in ls'.byLeaseId
      ensures ls'.byLeaseId[l].workspaceId in ls'.byWorkspace
    {
      assert l in ls.byLeaseId && l !in own;
      assert ls.byWorkspace[ls.byLeaseId[l].workspaceId].writer.value.leaseId == l;
    }
  }

  /** `create` as one step. Every refusal runs the catch block, which frees what the session holds. */
  function AfterCreate(w: World, r: Request): World {
    var outcome := JudgeCreate(w, r);
    if outcome.Created? then
      w.(limiter := Reserved(w.limiter, r.provider, r.id),
         index := if r.workspace.Some? then WithSession(w.index, r.workspace.value, r.id) else w.index,
         sessions := w.sessions[r.id := Fact(r.provider, r.workspace, r.lease, false, false)])
    else
      // a reservation taken before a failing launch is released in the same step
      var limiter := if outcome.LaunchFailed? then Released(Reserved(w.limiter, r.provider, r.id), r.id) else w.limiter;
      w.(limiter := limiter, leases := Freed(w.leases, r.id))
  }

  /** The `finally` of a session's event stream: the single release site of an admitted session. */
  function AfterFinally(w: World, id: Id): World {
    if id !in w.sessions then w else
      w.(limiter := Released(w.limiter, id), leases := Freed(w.leases, id), index := WithoutSession(w.index, id),
         sessions := w.sessions[id := w.sessions[id].(finished := true)])
  }

  /** The synchronous end of `remove`. */
  function AfterRemove(w: World, id: Id): World {
    if id !in w.sessions then w else
      w.(index := WithoutSession(w.index, id), sessions := w.sessions[id := w.sessions[id].(removed := true)])
  }

  // ------------------------------------------------------------------ runs

  datatype Step =
    | Block(workspace: WorkspaceId)
    | Allow(workspace: WorkspaceId)
    | AcquireLease(lease: Lease)
    | Create(request: Request)
    | Finally(id: Id)
    | Remove(id: Id)

  /** Fresh ids, a lease that was really acquired, and one `finally` per session. */
  predicate Possible(w: World, step: Step) {
    match step
    case AcquireLease(lease) => lease.leaseId !in w.leases.byLeaseId && lease.sessionId !in w.sessions
    case Create(r) =>
      && r.id !in w.sessions
      && (r.lease.Some? ==> HoldsLease(w.leases, r.lease.value.sessionId, r.lease.value))
    case Finally(id) => id in w.sessions && !w.sessions[id].finished
    case _ => true
  }

  function Apply(w: World, step: Step): World {
    match step
    case Block(x) => AfterBlock(w, x)
    case Allow(x) => AfterAllow(w, x)
    case AcquireLease(lease) => w.(leases := AfterAcquire(w.leases, lease))
    case Create(r) => AfterCreate(w, r)
    case Finally(id) => AfterFinally(w, id)
    case Remove(id) => AfterRemove(w, id)
  }

  function After(steps: seq<Step>): World {
    if steps == [] then START else Apply(After(steps[..|steps| - 1]), steps[|steps| - 1])
  }

  predicate PossibleRun(steps: seq<Step>) {
    steps == [] || (PossibleRun(steps[..|steps| - 1]) && Possible(After(steps[..|steps| - 1]), steps[|steps| - 1]))
  }

  type Sessions = map<Id, Fact>

  predicate Live(sessions: Sessions, id: Id) {
    id in sessions && !sessions[id].finished
  }

  // ------------------------------------------------------------------ invariant

  /** Held reservations are exactly the admitted sessions whose `finally` has not run. */
  ghost predicate ReservationsExact(limiter: Limiter, sessions: Sessions) {
    && Exact(limiter)
    && (forall id: Id :: id in limiter.held <==> Live(sessions, id))
    && (forall id :: id in limiter.held ==> limiter.held[id] == sessions[id].provider)
  }

  /** A live session admitted with a lease still holds it. */
  ghost predicate LeasesKept(leases: Leases, sessions: Sessions) {
    && Exclusive(leases)
    && (forall id :: Live(sessions, id) && sessions[id].lease.Some? ==> HoldsLease(leases, id, sessions[id].lease.value))
  }

  predicate HoldsLease(leases: Leases, id: Id, lease: Lease) {
    lease.sessionId == id && lease.leaseId in leases.byLeaseId && leases.byLeaseId[lease.leaseId] == lease
  }

  /** Running in a workspace and not yet removed from the live view. */
  predicate RunningIn(sessions: Sessions, id: Id, workspace: WorkspaceId) {
    Live(sessions, id) && !sessions[id].removed && sessions[id].workspace == Some(workspace)
  }

  /** The workspace index and its inverse list exactly the sessions running in a workspace. */
  ghost predicate IndexExact(x: Index, sessions: Sessions) {
    && (forall id, workspace :: InInverse(x, id, workspace) <==> RunningIn(sessions, id, workspace))
    && (forall id, workspace :: id in Indexed(x, workspace) <==> RunningIn(sessions, id, workspace))
    && (forall workspace :: workspace in x.byWorkspace ==> x.byWorkspace[workspace] != {})
  }

  predicate InInverse(x: Index, id: Id, workspace: WorkspaceId) {
    id in x.bySession && x.bySession[id] == workspace
  }

  ghost predicate Sound(w: World) {
    ReservationsExact(w.limiter, w.sessions) && LeasesKept(w.leases, w.sessions) && IndexExact(w.index, w.sessions)
  }

  lemma AdmitKeepsReservations(limiter: Limiter, sessions: Sessions, id: Id, fact: Fact)
    requires ReservationsExact(limiter, sessions) && id !in sessions && !fact.finished
    requires Judge(limiter, fact.provider, id) == Admit
    ensures ReservationsExact(Reserved(limiter, fact.provider, id), sessions[id := fact])
  {
    ReservedExact(limiter, fact.provider, id);
  }

  lemma FinallyKeepsReservations(limiter: Limiter, sessions: Sessions, id: Id)
    requires ReservationsExact(limiter, sessions) && id in sessions
    ensures ReservationsExact(Released(limiter, id), sessions[id := sessions[id].(finished := true)])
  {
    ReleasedExact(limiter, id);
  }

  /** Freeing one session's leases leaves every other session's lease alone. */
  lemma FreedKeepsOthers(ls: Leases, id: Id)
    requires Exclusive(ls)
    ensures Exclusive(Freed(ls, id))
    ensures forall l :: l in Freed(ls, id).byLeaseId <==> l in ls.byLeaseId && ls.byLeaseId[l].sessionId != id
    ensures forall l :: l in Freed(ls, id).byLeaseId ==> Freed(ls, id).byLeaseId[l] == ls.byLeaseId[l]
  {
    FreedIsReleased(ls, id);
  }

  lemma FreedKeepsLeases(ls: Leases, sessions: Sessions, id: Id)
    requires LeasesKept(ls, sessions) && !Live(sessions, id)
    ensures LeasesKept(Freed(ls, id), sessions)
  {
    FreedKeepsOthers(ls, id);
  }

  lemma FinallyKeepsLeases(ls: Leases, sessions: Sessions, id: Id)
    requires LeasesKept(ls, sessions) && id in sessions
    ensures LeasesKept(Freed(ls, id), sessions[id := sessions[id].(finished := true)])
  {
    FreedKeepsLeases(ls, sessions[id := sessions[id].(finished := true)], id);
  }

  lemma UnindexExact(x: Index, sessions: Sessions, id: Id, fact: Fact)
    requires IndexExact(x, sessions) && id in sessions && (fact.finished || fact.removed)
    ensures IndexExact(WithoutSession(x, id), sessions[id := fact])
  {
    var x', sessions' := WithoutSession(x, id), sessions[id := fact];
    forall s, y: WorkspaceId
      ensures InInverse(x', s, y) <==> RunningIn(sessions', s, y)
      ensures s in Indexed(x', y) <==> RunningIn(sessions', s, y)
    {
      assert InInverse(x, s, y) <==> RunningIn(sessions, s, y);
      assert s in Indexed(x, y) <==> RunningIn(sessions, s, y);
      if id in x.bySession {
        assert InInverse(x, id, x.bySession[id]);
        assert id in Indexed(x, x.bySession[id]);
      } else {
        assert InInverse(x, id, y) <==> RunningIn(sessions, id, y);
      }
    }
  }

  lemma AdmitKeepsIndex(x: Index, sessions: Sessions, id: Id, fact: Fact)
    requires IndexExact(x, sessions) && id !in sessions && !fact.finished && !fact.removed
    ensures IndexExact(if fact.workspace.Some? then WithSession(x, fact.workspace.value, id) else x, sessions[id := fact])
  {
    var x' := if fact.workspace.Some? then WithSession(x, fact.workspace.value, id) else x;
    var sessions' := sessions[id := fact];
    forall s, y: WorkspaceId
      ensures InInverse(x', s, y) <==> RunningIn(sessions', s, y)
      ensures s in Indexed(x', y) <==> RunningIn(sessions', s, y)
    {
      assert InInverse(x, s, y) <==> RunningIn(sessions, s, y);
      assert s in Indexed(x, y) <==> RunningIn(sessions, s, y);
    }
  }

  lemma CreateKeepsSound(w: World, r: Request)
    requires Sound(w) && Possible(w, Create(r))
    ensures Sound(AfterCreate(w, r))
  {
    var fact := Fact(r.provider, r.workspace, r.lease, false, false);
    if JudgeCreate(w, r).Created? {
      AdmitKeepsReservations(w.limiter, w.sessions, r.id, fact);
      AdmitKeepsIndex(w.index, w.sessions, r.id, fact);
    } else {
      FreedKeepsLeases(w.leases, w.sessions, r.id);
      if JudgeCreate(w, r).LaunchFailed? { ReleaseUndoesReserve(w.limiter, r.provider, r.id); }
    }
  }

  lemma StepKeepsSound(w: World, step: Step)
    requires Sound(w) && Possible(w, step)
    ensures Sound(Apply(w, step))
  {
    match step
    case Block(x) =>
    case Allow(x) =>
    case AcquireLease(lease) => AcquireKeeps(w.leases, lease);
    case Create(r) => CreateKeepsSound(w, r);
    case Finally(id) =>
      FinallyKeepsReservations(w.limiter, w.sessions, id);
      FinallyKeepsLeases(w.leases, w.sessions, id);
      UnindexExact(w.index, w.sessions, id, w.sessions[id].(finished := true));
    case Remove(id) =>
      if id in w.sessions { UnindexExact(w.index, w.sessions, id, w.sessions[id].(removed := true)); }
  }

  lemma {:induction false} RunsAreSound(steps: seq<Step>)
    requires PossibleRun(steps)
    ensures Sound(After(steps))
  {
    if steps == [] {
      IdleExact();
    } else {
      RunsAreSound(steps[..|steps| - 1]);
      StepKeepsSound(After(steps[..|steps| - 1]), steps[|steps| - 1]);
    }
  }

  // ------------------------------------------------------------------ admission is conserved

  /**
   After any run: reservations are held exactly by the admitted sessions whose `finally` has not run,
   the counters are exact and within 4 and 2, no release can underflow, and two live sessions with
   leases on one workspace are the same session.
   */
  lemma AdmissionConserved(steps: seq<Step>)
    requires PossibleRun(steps)
    ensures var w := After(steps);
            && (forall id: Id :: id in w.limiter.held <==> Live(w.sessions, id))
            && |w.limiter.held| <= GLOBAL_LIMIT
            && (forall p: Provider ::
                  GetOr(w.limiter.perProvider, p, 0) == |Holders(w.limiter.held, p)| <= PER_PROVIDER_LIMIT)
            && (forall id: Id :: !Underflows(w.limiter, id))
            && (forall a, b :: SharesWorkspace(w.sessions, a, b) ==> a == b)
  {
    RunsAreSound(steps);
    var w := After(steps);
    forall id: Id
      ensures !Underflows(w.limiter, id)
    {
      ReleasedExact(w.limiter, id);
    }
    forall a, b | SharesWorkspace(w.sessions, a, b)
      ensures a == b
    {
      OneLeasePerWorkspace(w.leases, w.sessions[a].lease.value.leaseId, w.sessions[b].lease.value.leaseId);
    }
  }

  predicate SharesWorkspace(sessions: Sessions, a: Id, b: Id) {
    && Live(sessions, a) && Live(sessions, b)
    && sessions[a].lease.Some? && sessions[b].lease.Some?
    && sessions[a].lease.value.workspaceId == sessions[b].lease.value.workspaceId
  }

  /** A refused `create` leaves no trace but the release of the refused session's own leases. */
  lemma RefusalLeavesNoTrace(w: World, r: Request)
    requires Sound(w) && Possible(w, Create(r)) && !JudgeCreate(w, r).Created?
    ensures var w' := AfterCreate(w, r);
            && w' == w.(leases := w'.leases)
            && (forall l :: l in w'.leases.byLeaseId <==> l in w.leases.byLeaseId && w.leases.byLeaseId[l].sessionId != r.id)
  {
    FreedKeepsOthers(w.leases, r.id);
    if JudgeCreate(w, r).LaunchFailed? { ReleaseUndoesReserve(w.limiter, r.provider, r.id); }
  }

  /**
   The lease passed to a refused `create` is handed back exactly when it is the refused session's own:
   the catch block looks leases up by that session's id.
   */
  lemma RefusedLeaseFreedExactly(w: World, r: Request)
    requires Sound(w) && Possible(w, Create(r)) && !JudgeCreate(w, r).Created? && r.lease.Some?
    ensures r.lease.value.leaseId !in AfterCreate(w, r).leases.byLeaseId <==> r.lease.value.sessionId == r.id
  {
    RefusalLeavesNoTrace(w, r);
  }

  /** Session 10 acquires a lease, and session 11 is then created with it. */
  function ForeignLeaseRun(): seq<Step> {
    var lease := Lease(1, 7, 10);
    [AcquireLease(lease), Create(Request(11, 0, None, Some(lease), None, true, true))]
  }

  /** A run in which a lease of another session is refused but, unlike what the comment at the check says, stays held. */
  lemma ForeignLeaseStaysHeld()
    ensures var run := ForeignLeaseRun();
            && PossibleRun(run) && JudgeCreate(After(run[..1]), run[1].request).ForeignLease?
            && 1 in After(run).leases.byLeaseId
  {
    var run := ForeignLeaseRun();
    var lease := Lease(1, 7, 10);
    var one := [AcquireLease(lease)];
    assert run[..1] == one && one[..|one| - 1] == [];
    assert After([]) == START && PossibleRun([]);
    var w := After(one);
    assert w == Apply(After([]), AcquireLease(lease));
    assert w.leases.byLeaseId == map[1 := lease];
    assert PossibleRun(one);
    RunsAreSound(one);
    RefusedLeaseFreedExactly(w, run[1].request);
  }

  // ------------------------------------------------------------------ every step takes effect

  /** There is room: fewer than four sessions in all, and fewer than two of this provider. */
  predicate HasRoom(held: map<Id, Provider>, provider: Provider, id: Id) {
    id !in held && |held| < 4 && |Holders(held, provider)| < 2
  }

  predicate OwnLease(r: Request) {
    r.lease.Some? ==> r.lease.value.sessionId == r.id
  }

  predicate NotBlocked(w: World, r: Request) {
    r.workspace.Some? ==> r.workspace.value !in w.blocked
  }

  predicate CurrentGrant(w: World, r: Request) {
    r.workspace.Some? && r.expectedEpoch.Some? ==> Epoch(w, r.workspace.value) == r.expectedEpoch.value
  }

  lemma RoomExactly(l: Limiter, provider: Provider, id: Id)
    requires Exact(l)
    ensures Judge(l, provider, id) == Admit <==> HasRoom(l.held, provider, id)
  {
    JudgedExactly(l, provider, id);
  }

  /** When a session is admitted, and for which cause it is not: the first that holds, in this order. */
  lemma AdmittedExactly(w: World, r: Request)
    requires Sound(w)
    ensures var o := JudgeCreate(w, r);
            && (o == UnknownProvider <==> !r.providerKnown)
            && (o == ForeignLease <==> r.providerKnown && !OwnLease(r))
            && (o == Revoked <==> r.providerKnown && OwnLease(r) && !NotBlocked(w, r))
            && (o == StaleGrant <==> r.providerKnown && OwnLease(r) && NotBlocked(w, r) && !CurrentGrant(w, r))
            && (o.LimitReached? <==> r.providerKnown && OwnLease(r) && NotBlocked(w, r) && CurrentGrant(w, r)
                                     && !HasRoom(w.limiter.held, r.provider, r.id))
            && (o == LaunchFailed <==> r.providerKnown && OwnLease(r) && NotBlocked(w, r) && CurrentGrant(w, r)
                                       && HasRoom(w.limiter.held, r.provider, r.id) && !r.launches)
            && (o == Created <==> r.providerKnown && OwnLease(r) && NotBlocked(w, r) && CurrentGrant(w, r)
                                  && HasRoom(w.limiter.held, r.provider, r.id) && r.launches)
  {
    RoomExactly(w.limiter, r.provider, r.id);
  }

  /** An admitted session is live, holds a reservation, and is indexed under its workspace. */
  lemma AdmissionTakesEffect(w: World, r: Request)
    requires Sound(w) && Possible(w, Create(r)) && JudgeCreate(w, r).Created?
    ensures var w' := Apply(w, Create(r));
            && w'.limiter.held == w.limiter.held[r.id := r.provider]
            && w'.sessions == w.sessions[r.id := Fact(r.provider, r.workspace, r.lease, false, false)]
            && Live(w'.sessions, r.id) && (r.workspace.Some? ==> r.id in Indexed(w'.index, r.workspace.value))
            && w'.leases == w.leases && w'.blocked == w.blocked && w'.epochs == w.epochs
  {
    JudgedExactly(w.limiter, r.provider, r.id);
  }

  /** The `finally` frees the session's reservation, leases and index entry, and nobody else's. */
  lemma FinallyTakesEffect(w: World, id: Id)
    requires Sound(w) && Possible(w, Finally(id))
    ensures var w' := Apply(w, Finally(id));
            && w'.limiter.held == w.limiter.held - {id} && !Live(w'.sessions, id)
            && (forall x :: id !in Indexed(w'.index, x))
            && (forall x, o :: o != id ==> (o in Indexed(w'.index, x) <==> o in Indexed(w.index, x)))
            && (forall l :: l in w'.leases.byLeaseId <==> l in w.leases.byLeaseId && w.leases.byLeaseId[l].sessionId != id)
            && (forall o :: o in w.sessions && o != id ==> o in w'.sessions && w'.sessions[o] == w.sessions[o])
            && w'.blocked == w.blocked && w'.epochs == w.epochs
  {
    FinallyFreesHold(w, id);
    FinallyUnindexes(w, id);
  }

  lemma FinallyFreesHold(w: World, id: Id)
    requires Sound(w) && id in w.sessions
    ensures Apply(w, Finally(id)).limiter.held == w.limiter.held - {id}
    ensures var after := Apply(w, Finally(id)).leases.byLeaseId;
            forall l :: l in after <==> l in w.leases.byLeaseId && w.leases.byLeaseId[l].sessionId != id
  {
    JudgedExactly(w.limiter, 0, id);
    FreedKeepsOthers(w.leases, id);
  }

  lemma FinallyUnindexes(w: World, id: Id)
    requires Sound(w) && Possible(w, Finally(id))
    ensures var x := Apply(w, Finally(id)).index;
            && (forall workspace :: id !in Indexed(x, workspace))
            && (forall workspace, o :: o != id ==> (o in Indexed(x, workspace) <==> o in Indexed(w.index, workspace)))
  {
    StepKeepsSound(w, Finally(id));
    IndexedElsewhere(w, Apply(w, Finally(id)), id);
  }

  lemma IndexedElsewhere(w: World, w': World, id: Id)
    requires Sound(w) && Sound(w') && !RunningAnywhere(w'.sessions, id)
    requires forall o :: o != id ==> (o in w.sessions <==> o in w'.sessions) && (o in w.sessions ==> w'.sessions[o] == w.sessions[o])
    ensures forall x :: id !in Indexed(w'.index, x)
    ensures forall x, o :: o != id ==> (o in Indexed(w'.index, x) <==> o in Indexed(w.index, x))
  {
    forall x ensures id !in Indexed(w'.index, x) { assert id in Indexed(w'.index, x) <==> RunningIn(w'.sessions, id, x); }
    forall x, o | o != id ensures o in Indexed(w'.index, x) <==> o in Indexed(w.index, x) {
      assert o in Indexed(w'.index, x) <==> RunningIn(w'.sessions, o, x);
      assert o in Indexed(w.index, x) <==> RunningIn(w.sessions, o, x);
    }
  }

  predicate RunningAnywhere(sessions: Sessions, id: Id) {
    Live(sessions, id) && !sessions[id].removed && sessions[id].workspace.Some?
  }

  /** Blocking, allowing, acquiring and removing, each with all it changes. */
  lemma OtherStepsTakeEffect(w: World, step: Step)
    requires Sound(w) && Possible(w, step)
    ensures var w' := Apply(w, step);
            match step
            case Block(x) =>
              && w' == w.(blocked := w.blocked + {x}, epochs := w'.epochs)
              && Epoch(w', x) == Epoch(w, x) + 1 && forall y :: y != x ==> Epoch(w', y) == Epoch(w, y)
            case Allow(x) =>
              && w' == w.(blocked := w.blocked - {x}, epochs := w'.epochs)
              && Epoch(w', x) == Epoch(w, x) + 1 && forall y :: y != x ==> Epoch(w', y) == Epoch(w, y)
            case AcquireLease(lease) =>
              && w' == w.(leases := w'.leases)
              && ((forall l :: l in w.leases.byLeaseId ==> w.leases.byLeaseId[l].workspaceId != lease.workspaceId) ==>
                    w'.leases.byLeaseId == w.leases.byLeaseId[lease.leaseId := lease])
            case Remove(id) =>
              id in w.sessions ==>
                && (forall x :: id !in Indexed(w'.index, x)) && w'.limiter == w.limiter && w'.leases == w.leases
                && (Live(w.sessions, id) ==> Live(w'.sessions, id))
            case _ => true
  {
    match step
    case AcquireLease(lease) => AcquireKeeps(w.leases, lease);
    case Remove(id) =>
      if id in w.sessions {
        StepKeepsSound(w, step);
        IndexedElsewhere(w, Apply(w, step), id);
      }
    case _ =>
  }

  // ------------------------------------------------------------------ revocation wins

  predicate Toggles(step: Step, x: WorkspaceId) {
    step == Block(x) || step == Allow(x)
  }

  function ToggleCount(steps: seq<Step>, x: WorkspaceId): nat {
    if steps == [] then 0 else
      ToggleCount(steps[..|steps| - 1], x) + (if Toggles(steps[|steps| - 1], x) then 1 else 0)
  }

  lemma {:induction false} EpochCountsToggles(steps: seq<Step>, x: WorkspaceId)
    ensures Epoch(After(steps), x) == ToggleCount(steps, x)
  {
    if steps != [] {
      EpochCountsToggles(steps[..|steps| - 1], x);
    }
  }

  ghost predicate Untouched(steps: seq<Step>, start: nat, end: nat, x: WorkspaceId)
    requires start <= end <= |steps|
  {
    forall i :: start <= i < end ==> !Toggles(steps[i], x)
  }

  lemma UntouchedOneMore(steps: seq<Step>, start: nat, end: nat, x: WorkspaceId)
    requires start < end <= |steps|
    ensures Untouched(steps, start, end, x) <==> Untouched(steps, start, end - 1, x) && !Toggles(steps[end - 1], x)
  {
  }

  lemma EpochOneMore(steps: seq<Step>, end: nat, x: WorkspaceId)
    requires 0 < end <= |steps|
    ensures Epoch(After(steps[..end]), x) == Epoch(After(steps[..end - 1]), x) + (if Toggles(steps[end - 1], x) then 1 else 0)
  {
    assert steps[..end][..end - 1] == steps[..end - 1];
    EpochCountsToggles(steps[..end], x);
    EpochCountsToggles(steps[..end - 1], x);
  }

  /** The epoch is the same at two moments exactly when nothing touched the workspace in between. */
  lemma {:induction false} SameEpochMeansUntouched(steps: seq<Step>, start: nat, end: nat, x: WorkspaceId)
    requires start <= end <= |steps|
    ensures Epoch(After(steps[..start]), x) <= Epoch(After(steps[..end]), x)
    ensures Epoch(After(steps[..start]), x) == Epoch(After(steps[..end]), x) <==> Untouched(steps, start, end, x)
    decreases end
  {
    if start < end {
      SameEpochMeansUntouched(steps, start, end - 1, x);
      EpochOneMore(steps, end, x);
      UntouchedOneMore(steps, start, end, x);
    }
  }

  /** With nothing in between, the workspace is blocked at the end exactly when it was at the start. */
  lemma {:induction false} UntouchedKeepsBlock(steps: seq<Step>, start: nat, end: nat, x: WorkspaceId)
    requires start <= end <= |steps| && Untouched(steps, start, end, x)
    ensures x in After(steps[..start]).blocked <==> x in After(steps[..end]).blocked
    decreases end
  {
    if start < end {
      UntouchedKeepsBlock(steps, start, end - 1, x);
      assert steps[..end][..end - 1] == steps[..end - 1];
      assert steps[..end][end - 1] == steps[end - 1];
    }
  }

  /**
   `create` with the epoch that was current at `decided` admits only when no block and no allow of
   that workspace ran since, and the workspace was not blocked then either.
   */
  lemma AdmissionMeansUntouched(steps: seq<Step>, decided: nat, now: nat, r: Request)
    requires decided <= now <= |steps| && r.workspace.Some?
    requires r.expectedEpoch == Some(Epoch(After(steps[..decided]), r.workspace.value))
    requires JudgeCreate(After(steps[..now]), r).Created?
    ensures Untouched(steps, decided, now, r.workspace.value)
    ensures r.workspace.value !in After(steps[..decided]).blocked
  {
    SameEpochMeansUntouched(steps, decided, now, r.workspace.value);
    UntouchedKeepsBlock(steps, decided, now, r.workspace.value);
  }

  /** `workspaceIsTrusted`: three stretches, with an await between each and the next. */
  predicate TrustEntry(w: World, hasStore: bool, x: WorkspaceId, expected: nat) {
    hasStore && x !in w.blocked && Epoch(w, x) == expected
  }

  predicate TrustAfterRevalidation(w: World, sameWorkspace: bool, x: WorkspaceId, expected: nat) {
    Epoch(w, x) == expected && sameWorkspace
  }

  predicate TrustAfterInspection(w: World, trusted: bool, x: WorkspaceId, expected: nat) {
    && Epoch(w, x) == expected
    && trusted && x !in w.blocked && Epoch(w, x) == expected
  }

  predicate WorkspaceIsTrusted(
    w0: World, w1: World, w2: World, hasStore: bool, sameWorkspace: bool, trusted: bool, x: WorkspaceId, expected: nat)
  {
    && TrustEntry(w0, hasStore, x, expected)
    && TrustAfterRevalidation(w1, sameWorkspace, x, expected)
    && TrustAfterInspection(w2, trusted, x, expected)
  }

  /**
   For an epoch read at `read`, and whatever runs inside the two awaits, the answer is yes exactly
   when both collaborators said yes, the workspace was open when the epoch was read, and no block
   and no allow of it ran from that moment to the answer.
   */
  lemma TrustMeansUntouched(
    steps: seq<Step>, read: nat, t0: nat, t1: nat, t2: nat,
    hasStore: bool, sameWorkspace: bool, trusted: bool, x: WorkspaceId)
    requires read <= t0 <= t1 <= t2 <= |steps|
    ensures WorkspaceIsTrusted(After(steps[..t0]), After(steps[..t1]), After(steps[..t2]),
                               hasStore, sameWorkspace, trusted, x, Epoch(After(steps[..read]), x))
            <==> hasStore && sameWorkspace && trusted
                 && x !in After(steps[..read]).blocked && Untouched(steps, read, t2, x)
  {
    SameEpochMeansUntouched(steps, read, t0, x);
    SameEpochMeansUntouched(steps, read, t1, x);
    SameEpochMeansUntouched(steps, read, t2, x);
    if Untouched(steps, read, t2, x) {
      UntouchedKeepsBlock(steps, read, t0, x);
      UntouchedKeepsBlock(steps, read, t2, x);
    }
  }

  ghost predicate NotAllowedSince(steps: seq<Step>, start: nat, end: nat, x: WorkspaceId)
    requires start <= end <= |steps|
  {
    forall i :: start <= i < end ==> steps[i] != Allow(x)
  }

  lemma {:induction false} BlockedUntilAllowed(steps: seq<Step>, blockedAt: nat, now: nat, x: WorkspaceId)
    requires blockedAt < now <= |steps| && steps[blockedAt] == Block(x)
    requires NotAllowedSince(steps, blockedAt, now, x)
    ensures x in After(steps[..now]).blocked
    decreases now
  {
    assert steps[..now][..now - 1] == steps[..now - 1];
    assert steps[..now][now - 1] == steps[now - 1];
    if blockedAt < now - 1 {
      BlockedUntilAllowed(steps, blockedAt, now - 1, x);
    }
  }

  /** From a block until the next allow, `create` admits no session in the workspace. */
  lemma NoAdmissionWhileBlocked(steps: seq<Step>, blockedAt: nat, now: nat, r: Request)
    requires blockedAt < now <= |steps| && r.workspace.Some? && steps[blockedAt] == Block(r.workspace.value)
    requires NotAllowedSince(steps, blockedAt, now, r.workspace.value)
    ensures !JudgeCreate(After(steps[..now]), r).Created?
  {
    BlockedUntilAllowed(steps, blockedAt, now, r.workspace.value);
  }

  /** What `revokeWorkspace` returns: the index right after its block. */
  function RevokedSessions(w: World, x: WorkspaceId): set<Id> {
    Indexed(AfterBlock(w, x).index, x)
  }

  lemma RevokeReturnsRunning(steps: seq<Step>, x: WorkspaceId, id: Id)
    requires PossibleRun(steps)
    ensures id in RevokedSessions(After(steps), x) <==> RunningIn(After(steps).sessions, id, x)
  {
    RunsAreSound(steps);
  }

  /** Revocation is complete: until the next allow, whatever still runs there was in the returned list. */
  lemma {:induction false} RevokeIsComplete(steps: seq<Step>, blockedAt: nat, now: nat, x: WorkspaceId, id: Id)
    requires PossibleRun(steps) && blockedAt < now <= |steps| && steps[blockedAt] == Block(x)
    requires NotAllowedSince(steps, blockedAt, now, x)
    requires RunningIn(After(steps[..now]).sessions, id, x)
    ensures id in RevokedSessions(After(steps[..blockedAt]), x)
    decreases now
  {
    assert steps[..now][..now - 1] == steps[..now - 1];
    assert steps[..now][now - 1] == steps[now - 1];
    if blockedAt == now - 1 {
      PrefixPossible(steps, blockedAt);
      RevokeReturnsRunning(steps[..blockedAt], x, id);
    } else {
      BlockedUntilAllowed(steps, blockedAt, now - 1, x);
      RevokeIsComplete(steps, blockedAt, now - 1, x, id);
    }
  }

  lemma {:induction false} PrefixPossible(steps: seq<Step>, n: nat)
    requires PossibleRun(steps) && n <= |steps|
    ensures PossibleRun(steps[..n])
  {
    if n == |steps| {
      assert steps[..n] == steps;
    } else {
      PrefixPossible(steps[..|steps| - 1], n);
      assert steps[..|steps| - 1][..n] == steps[..n];
    }
  }

  // ------------------------------------------------------------------ the class

  class SessionManager {
    const limiter: ActiveSessionLimiter
    const leases: WorkspaceExecutionLeaseManager
    var blockedWorkspaces: set<WorkspaceId>
    var workspaceRevocationEpochs: map<WorkspaceId, nat>
    var sessionsByWorkspace: map<WorkspaceId, set<Id>>
    var workspaceBySession: map<Id, WorkspaceId>
    ghost var sessions: Sessions

    ghost function State(): World
      reads this, limiter, leases
    {
      World(limiter.State(), leases.State(), blockedWorkspaces, workspaceRevocationEpochs,
            Index(sessionsByWorkspace, workspaceBySession), sessions)
    }

    constructor ()
      ensures State() == START && fresh(limiter) && fresh(leases)
    {
      limiter := new ActiveSessionLimiter();
      leases := new WorkspaceExecutionLeaseManager();
      blockedWorkspaces, workspaceRevocationEpochs := {}, map[];
      sessionsByWorkspace, workspaceBySession, sessions := map[], map[], map[];
    }

    function WorkspaceEpoch(workspaceId: WorkspaceId): nat
      reads this
    {
      GetOr(workspaceRevocationEpochs, workspaceId, 0)
    }

    method BlockWorkspace(workspaceId: WorkspaceId)
      modifies this
      ensures State() == AfterBlock(old(State()), workspaceId)
      ensures blockedWorkspaces == old(blockedWorkspaces) + {workspaceId} && WorkspaceEpoch(workspaceId) == old(WorkspaceEpoch(workspaceId)) + 1
    {
      blockedWorkspaces := blockedWorkspaces + {workspaceId};
      workspaceRevocationEpochs := workspaceRevocationEpochs[workspaceId := WorkspaceEpoch(workspaceId) + 1];
    }

    method AllowWorkspace(workspaceId: WorkspaceId)
      modifies this
      ensures State() == AfterAllow(old(State()), workspaceId)
      ensures blockedWorkspaces == old(blockedWorkspaces) - {workspaceId} && WorkspaceEpoch(workspaceId) == old(WorkspaceEpoch(workspaceId)) + 1
    {
      blockedWorkspaces := blockedWorkspaces - {workspaceId};
      workspaceRevocationEpochs := workspaceRevocationEpochs[workspaceId := WorkspaceEpoch(workspaceId) + 1];
    }

    /** The synchronous half of `revokeWorkspace`: block, then read the index. */
    method RevokeWorkspace(workspaceId: WorkspaceId) returns (sessionIds: set<Id>)
      modifies this
      ensures State() == AfterBlock(old(State()), workspaceId)
      ensures sessionIds == RevokedSessions(old(State()), workspaceId)
      ensures workspaceId in blockedWorkspaces && sessionIds == GetOr(old(sessionsByWorkspace), workspaceId, {})
    {
      BlockWorkspace(workspaceId);
      sessionIds := GetOr(sessionsByWorkspace, workspaceId, {});
    }

    method Create(r: Request) returns (outcome: Outcome)
      requires Sound(State()) && Possible(State(), Step.Create(r))
      modifies this, limiter, leases
      ensures outcome == JudgeCreate(old(State()), r)
      ensures State() == AfterCreate(old(State()), r)
    {
      ghost var before := State();
      outcome := CheckAdmission(r);
      var reserved := false;
      if outcome.Created? {
        var verdict := limiter.Reserve(r.provider, r.id);
        if verdict != Admit {
          outcome := LimitReached(verdict);
        } else {
          reserved := true;
          ReservedExact(before.limiter, r.provider, r.id);
          if !r.launches { outcome := LaunchFailed; }
        }
      }
      if !outcome.Created? {
        if reserved { var _ := limiter.Release(r.id); }
        leases.ReleaseForSession(r.id);
        FreedIsReleased(before.leases, r.id);
        ReleasedForUnique(before.leases, r.id, leases.State(), Freed(before.leases, r.id));
        return;
      }
      if r.workspace.Some? { IndexWorkspaceSession(r.workspace.value, r.id); }
      sessions := sessions[r.id := Fact(r.provider, r.workspace, r.lease, false, false)];
    }

    /** The guards above the reservation point; `Created` means all of them passed. */
    method CheckAdmission(r: Request) returns (outcome: Outcome)
      ensures outcome ==
                if !r.providerKnown then UnknownProvider
                else if r.lease.Some? && r.lease.value.sessionId != r.id then ForeignLease
                else if r.workspace.Some? && r.workspace.value in blockedWorkspaces then Revoked
                else if r.workspace.Some? && r.expectedEpoch.Some?
                        && WorkspaceEpoch(r.workspace.value) != r.expectedEpoch.value then StaleGrant
                else Created
    {
      if !r.providerKnown { return UnknownProvider; }
      if r.lease.Some? && r.lease.value.sessionId != r.id { return ForeignLease; }
      if r.workspace.Some? {
        if r.workspace.value in blockedWorkspaces { return Revoked; }
        if r.expectedEpoch.Some? && WorkspaceEpoch(r.workspace.value) != r.expectedEpoch.value { return StaleGrant; }
      }
      return Created;
    }

    method IndexWorkspaceSession(workspaceId: WorkspaceId, id: Id)
      modifies this
      ensures State() == old(State()).(index := WithSession(old(State()).index, workspaceId, id))
    {
      var existing := GetOr(sessionsByWorkspace, workspaceId, {});
      sessionsByWorkspace := sessionsByWorkspace[workspaceId := existing + {id}];
      workspaceBySession := workspaceBySession[id := workspaceId];
    }

    method UnindexWorkspaceSession(id: Id)
      modifies this
      ensures State() == old(State()).(index := WithoutSession(old(State()).index, id))
    {
      if id !in workspaceBySession { return; }
      var workspaceId := workspaceBySession[id];
      workspaceBySession := workspaceBySession - {id};
      if workspaceId !in sessionsByWorkspace { return; }
      var rest := sessionsByWorkspace[workspaceId] - {id};
      sessionsByWorkspace := sessionsByWorkspace[workspaceId := rest];
      if rest == {} {
        sessionsByWorkspace := sessionsByWorkspace - {workspaceId};
        assert sessionsByWorkspace == old(sessionsByWorkspace) - {workspaceId};
      }
    }

    /** The `finally` block of `consume`. */
    method ConsumeFinally(id: Id)
      requires Sound(State()) && Possible(State(), Finally(id))
      modifies this, limiter, leases
      ensures State() == AfterFinally(old(State()), id)
    {
      ghost var before := State();
      var _ := limiter.Release(id);
      leases.ReleaseForSession(id);
      FreedIsReleased(before.leases, id);
      ReleasedForUnique(before.leases, id, leases.State(), Freed(before.leases, id));
      UnindexWorkspaceSession(id);
      sessions := sessions[id := sessions[id].(finished := true)];
    }

    method RemoveFromView(id: Id)
      requires id in sessions
      modifies this
      ensures State() == AfterRemove(old(State()), id)
    {
      UnindexWorkspaceSession(id);
      sessions := sessions[id := sessions[id].(removed := true)];
    }
  }
}
