/**
 Exclusive use of one workspace by one session.

 Runs are the ones the daemon has: every acquire asks for the write mode, which never reaches the
 dirty check and is therefore one uninterrupted step.
 */
module WorkspaceLeases {
  import opened Basics

  type WorkspaceId = nat
  type SessionId = nat  // an opaque token
  type LeaseId = nat

  datatype Lease = Lease(leaseId: LeaseId, workspaceId: WorkspaceId, sessionId: SessionId)

  datatype LeaseSet = LeaseSet(writer: Option<Lease>, readers: map<LeaseId, Lease>, pendingWriter: Option<LeaseId>)

  datatype Leases = Leases(byWorkspace: map<WorkspaceId, LeaseSet>, byLeaseId: map<LeaseId, Lease>)

  const NO_LEASES: Leases := Leases(map[], map[])
  const EMPTY_SET: LeaseSet := LeaseSet(None, map[], None)

  datatype Conflict = WriterActive | ReaderActive
  datatype Acquired = Granted(lease: Lease) | Refused(reason: Conflict)

  function Pruned(ls: Leases, workspaceId: WorkspaceId): Leases {
    if workspaceId in ls.byWorkspace && ls.byWorkspace[workspaceId] == EMPTY_SET
    then ls.(byWorkspace := ls.byWorkspace - {workspaceId}) else ls
  }

  function JudgeWrite(ls: Leases, lease: Lease): Acquired {
    var current := GetOr(ls.byWorkspace, lease.workspaceId, EMPTY_SET);
    if current.writer.Some? || current.pendingWriter.Some? then Refused(WriterActive)
    else if |current.readers| > 0 then Refused(ReaderActive)
    else Granted(lease)
  }

  /** The whole state after `acquire` in write mode. */
  function AfterAcquire(ls: Leases, lease: Lease): Leases {
    var current := GetOr(ls.byWorkspace, lease.workspaceId, EMPTY_SET);
    if JudgeWrite(ls, lease).Refused? then ls.(byWorkspace := ls.byWorkspace[lease.workspaceId := current])
    else Leases(ls.byWorkspace[lease.workspaceId := current.(writer := Some(lease))], ls.byLeaseId[lease.leaseId := lease])
  }

  function AfterRelease(ls: Leases, leaseId: LeaseId): Leases {
    if leaseId !in ls.byLeaseId then ls else
      var lease := ls.byLeaseId[leaseId];
      var ls1 := ls.(byLeaseId := ls.byLeaseId - {leaseId});
      if lease.workspaceId !in ls.byWorkspace then ls1 else
        var current := ls.byWorkspace[lease.workspaceId];
        var freed := LeaseSet(
          if current.writer.Some? && current.writer.value.leaseId == leaseId then None else current.writer,
          current.readers - {leaseId}, current.pendingWriter);
        Pruned(ls1.(byWorkspace := ls.byWorkspace[lease.workspaceId := freed]), lease.workspaceId)
  }

  /** Each held lease is the only user of its workspace, and no other workspace is tracked. */
  ghost predicate Exclusive(ls: Leases) {
    && (forall id :: id in ls.byLeaseId ==>
          && ls.byLeaseId[id].leaseId == id
          && ls.byLeaseId[id].workspaceId in ls.byWorkspace
          && ls.byWorkspace[ls.byLeaseId[id].workspaceId] == LeaseSet(Some(ls.byLeaseId[id]), map[], None))
    && (forall w :: w in ls.byWorkspace ==>
          && ls.byWorkspace[w].writer.Some?
          && ls.byWorkspace[w].writer.value.workspaceId == w
          && ls.byWorkspace[w].writer.value.leaseId in ls.byLeaseId
          && ls.byWorkspace[w] == LeaseSet(Some(ls.byLeaseId[ls.byWorkspace[w].writer.value.leaseId]), map[], None))
  }

  /** What exclusion means: two leases on one workspace are the same lease. */
  lemma OneLeasePerWorkspace(ls: Leases, a: LeaseId, b: LeaseId)
    requires Exclusive(ls) && a in ls.byLeaseId && b in ls.byLeaseId
    requires ls.byLeaseId[a].workspaceId == ls.byLeaseId[b].workspaceId
    ensures a == b
  {
    assert ls.byWorkspace[ls.byLeaseId[a].workspaceId].writer == Some(ls.byLeaseId[a]);
    assert ls.byWorkspace[ls.byLeaseId[b].workspaceId].writer == Some(ls.byLeaseId[b]);
  }

  /** Acquiring keeps exclusion; it is granted exactly when no lease names the workspace. */
  lemma AcquireKeeps(ls: Leases, lease: Lease)
    requires Exclusive(ls) && lease.leaseId !in ls.byLeaseId
    ensures Exclusive(AfterAcquire(ls, lease))
    ensures JudgeWrite(ls, lease).Granted? <==>
              forall id :: id in ls.byLeaseId ==> ls.byLeaseId[id].workspaceId != lease.workspaceId
    ensures AfterAcquire(ls, lease).byLeaseId ==
              if JudgeWrite(ls, lease).Granted? then ls.byLeaseId[lease.leaseId := lease] else ls.byLeaseId
    ensures JudgeWrite(ls, lease).Refused? ==> AfterAcquire(ls, lease) == ls && JudgeWrite(ls, lease).reason == WriterActive
    ensures JudgeWrite(ls, lease).Granted? ==> JudgeWrite(ls, lease).lease == lease
  {
    if lease.workspaceId in ls.byWorkspace {
      var holder := ls.byWorkspace[lease.workspaceId].writer.value;
      assert ls.byLeaseId[holder.leaseId].workspaceId == lease.workspaceId;
      assert ls.byWorkspace[lease.workspaceId := ls.byWorkspace[lease.workspaceId]] == ls.byWorkspace;
    }
  }

  /** Releasing frees exactly that lease; an unknown id changes nothing. */
  lemma ReleaseKeeps(ls: Leases, leaseId: LeaseId)
    requires Exclusive(ls)
    ensures Exclusive(AfterRelease(ls, leaseId))
    ensures AfterRelease(ls, leaseId).byLeaseId == ls.byLeaseId - {leaseId}
    ensures leaseId !in ls.byLeaseId ==> AfterRelease(ls, leaseId) == ls
  {
    if leaseId in ls.byLeaseId {
      var lease := ls.byLeaseId[leaseId];
      forall id | id in ls.byLeaseId && id != leaseId
        ensures ls.byLeaseId[id].workspaceId != lease.workspaceId
      {
        if ls.byLeaseId[id].workspaceId == lease.workspaceId { OneLeasePerWorkspace(ls, id, leaseId); }
      }
      var ls' := AfterRelease(ls, leaseId);
      assert ls'.byWorkspace == ls.byWorkspace - {lease.workspaceId};
    } else {
      assert ls.byLeaseId - {leaseId} == ls.byLeaseId;
    }
  }

  function LeasesOf(ls: Leases, sessionId: SessionId): set<LeaseId> {
    set id | id in ls.byLeaseId && ls.byLeaseId[id].sessionId == sessionId
  }

  /** What is left once every lease of a session has been released. */
  ghost predicate ReleasedFor(ls: Leases, sessionId: SessionId, ls': Leases) {
    Exclusive(ls') && ls'.byLeaseId == ls.byLeaseId - LeasesOf(ls, sessionId)
  }

  /** Exclusion leaves only one such state, so the order of the release loop does not matter. */
  lemma ReleasedForUnique(ls: Leases, sessionId: SessionId, a: Leases, b: Leases)
    requires ReleasedFor(ls, sessionId, a) && ReleasedFor(ls, sessionId, b)
    ensures a == b
  {
    assert a.byWorkspace.Keys == b.byWorkspace.Keys by {
      forall w
        ensures w in a.byWorkspace <==> w in b.byWorkspace
      {
        if w in a.byWorkspace { assert a.byWorkspace[w].writer.value.leaseId in b.byLeaseId; }
        if w in b.byWorkspace { assert b.byWorkspace[w].writer.value.leaseId in a.byLeaseId; }
      }
    }
    forall w | w in a.byWorkspace
      ensures a.byWorkspace[w] == b.byWorkspace[w]
    {
      var id := a.byWorkspace[w].writer.value.leaseId;
      assert b.byLeaseId[id].workspaceId == w;
    }
  }

  class WorkspaceExecutionLeaseManager {
    var byWorkspace: map<WorkspaceId, LeaseSet>
    var byLeaseId: map<LeaseId, Lease>

    ghost function State(): Leases
      reads this
    {
      Leases(byWorkspace, byLeaseId)
    }

    constructor ()
      ensures State() == NO_LEASES
    {
      byWorkspace, byLeaseId := map[], map[];
    }

    /** `marker` and `leaseId` are the two fresh identifiers the call mints. */
    method AcquireWrite(workspaceId: WorkspaceId, sessionId: SessionId, marker: LeaseId, leaseId: LeaseId)
      returns (result: Acquired)
      requires Exclusive(State()) && leaseId !in byLeaseId
      modifies this
      ensures result == JudgeWrite(old(State()), Lease(leaseId, workspaceId, sessionId))
      ensures State() == AfterAcquire(old(State()), Lease(leaseId, workspaceId, sessionId))
      ensures Exclusive(State())
    {
      AcquireKeeps(State(), Lease(leaseId, workspaceId, sessionId));
      var current := GetOr(byWorkspace, workspaceId, EMPTY_SET);
      byWorkspace := byWorkspace[workspaceId := current];
      if current.writer.Some? || current.pendingWriter.Some? { return Refused(WriterActive); }
      if |current.readers| > 0 { return Refused(ReaderActive); }
      current := current.(pendingWriter := Some(marker));
      var lease := Lease(leaseId, workspaceId, sessionId);
      current := current.(writer := Some(lease));
      byLeaseId := byLeaseId[leaseId := lease];
      if current.pendingWriter == Some(marker) { current := current.(pendingWriter := None); }
      byWorkspace := byWorkspace[workspaceId := current];
      return Granted(lease);
    }

    method Release(leaseId: LeaseId)
      modifies this
      ensures State() == AfterRelease(old(State()), leaseId)
    {
      if leaseId !in byLeaseId { return; }
      var lease := byLeaseId[leaseId];
      byLeaseId := byLeaseId - {leaseId};
      if lease.workspaceId !in byWorkspace { return; }
      var current := byWorkspace[lease.workspaceId];
      if current.writer.Some? && current.writer.value.leaseId == leaseId { current := current.(writer := None); }
      current := current.(readers := current.readers - {leaseId});
      byWorkspace := byWorkspace[lease.workspaceId := current];
      if current == EMPTY_SET { byWorkspace := byWorkspace - {lease.workspaceId}; }
    }

    /** Frees every lease of the session and no other. */
    method ReleaseForSession(sessionId: SessionId)
      requires Exclusive(State())
      modifies this
      ensures ReleasedFor(old(State()), sessionId, State())
    {
      var snapshot := byLeaseId;
      var todo := snapshot.Keys;
      ghost var own, start := LeasesOf(State(), sessionId), State();
      while todo != {}
        invariant Exclusive(State())
        invariant todo <= snapshot.Keys
        invariant Without(snapshot, own - todo, byLeaseId)
        decreases |todo|
      {
        var id :| id in todo;
        if snapshot[id].sessionId == sessionId {
          ReleaseKeeps(State(), id);
          Release(id);
        }
        todo := todo - {id};
      }
      assert byLeaseId == start.byLeaseId - own;
    }
  }

  ghost predicate Without(all: map<LeaseId, Lease>, gone: set<LeaseId>, rest: map<LeaseId, Lease>) {
    && (forall id :: id in rest <==> id in all && id !in gone)
    && (forall id :: id in rest ==> rest[id] == all[id])
  }
}
