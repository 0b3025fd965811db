/** The admission gate: at most four active sessions, at most two of one provider. */
module SessionLimiter {
  import opened Basics

  type SessionId = nat  // an opaque token
  type Provider = nat

  const GLOBAL_LIMIT: nat := 4
  const PER_PROVIDER_LIMIT: nat := 2

  /** `held` is session id to provider; its size is the global active count. */
  datatype Limiter = Limiter(held: map<SessionId, Provider>, perProvider: map<Provider, nat>)

  const IDLE: Limiter := Limiter(map[], map[])

  datatype Verdict = Admit | DuplicateId | GlobalFull | ProviderFull

  function Judge(l: Limiter, provider: Provider, id: SessionId): Verdict {
    if id in l.held then DuplicateId
    else if |l.held| >= GLOBAL_LIMIT then GlobalFull
    else if GetOr(l.perProvider, provider, 0) >= PER_PROVIDER_LIMIT then ProviderFull
    else Admit
  }

  function Reserved(l: Limiter, provider: Provider, id: SessionId): Limiter {
    if Judge(l, provider, id) != Admit then l else
      Limiter(l.held[id := provider], l.perProvider[provider := GetOr(l.perProvider, provider, 0) + 1])
  }

  function Released(l: Limiter, id: SessionId): Limiter {
    if id !in l.held then l else
      var active := GetOr(l.perProvider, l.held[id], 0);
      Limiter(l.held - {id},
              if active == 1 then l.perProvider - {l.held[id]}
              else if active == 0 then l.perProvider  // the accounting-underflow throw
              else l.perProvider[l.held[id] := active - 1])
  }

  /** The state in which `release` throws for accounting underflow. */
  predicate Underflows(l: Limiter, id: SessionId) {
    id in l.held && GetOr(l.perProvider, l.held[id], 0) == 0
  }

  function Holders(held: map<SessionId, Provider>, provider: Provider): set<SessionId> {
    set id | id in held && held[id] == provider
  }

  /** Both limits hold and every per-provider counter is the number of its holders. */
  ghost predicate Exact(l: Limiter) {
    && |l.held| <= GLOBAL_LIMIT
    && (forall p: Provider :: GetOr(l.perProvider, p, 0) == |Holders(l.held, p)| <= PER_PROVIDER_LIMIT)
    && (forall p :: p in l.perProvider ==> l.perProvider[p] > 0)
  }

  lemma IdleExact()
    ensures Exact(IDLE)
  {
    forall p: Provider
      ensures GetOr(IDLE.perProvider, p, 0) == |Holders(IDLE.held, p)|
    {
      assert Holders(IDLE.held, p) == {};
    }
  }

  lemma ReservedExact(l: Limiter, provider: Provider, id: SessionId)
    requires Exact(l)
    ensures Exact(Reserved(l, provider, id))
  {
    if Judge(l, provider, id) == Admit {
      var l' := Reserved(l, provider, id);
      forall p: Provider
        ensures GetOr(l'.perProvider, p, 0) == |Holders(l'.held, p)| <= PER_PROVIDER_LIMIT
      {
        HoldersGrow(l.held, provider, id, p);
      }
    }
  }

  /** The verdict, in the order of the checks: four sessions in all, two of one provider. */
  lemma JudgedExactly(l: Limiter, provider: Provider, id: SessionId)
    requires Exact(l)
    ensures Judge(l, provider, id) == DuplicateId <==> id in l.held
    ensures Judge(l, provider, id) == GlobalFull <==> id !in l.held && |l.held| >= 4
    ensures Judge(l, provider, id) == ProviderFull <==> id !in l.held && |l.held| < 4 && |Holders(l.held, provider)| >= 2
    ensures Judge(l, provider, id) == Admit <==> id !in l.held && |l.held| < 4 && |Holders(l.held, provider)| < 2
    ensures Reserved(l, provider, id).held == if Judge(l, provider, id) == Admit then l.held[id := provider] else l.held
    ensures Released(l, id).held == l.held - {id}
  {
  }

  lemma HoldersGrow(held: map<SessionId, Provider>, provider: Provider, id: SessionId, p: Provider)
    requires id !in held
    ensures Holders(held[id := provider], p) == if p == provider then Holders(held, p) + {id} else Holders(held, p)
    ensures id !in Holders(held, p)
  {
  }

  lemma HeldMeansCounted(l: Limiter, id: SessionId)
    requires Exact(l) && id in l.held
    ensures GetOr(l.perProvider, l.held[id], 0) >= 1 && !Underflows(l, id)
  {
    var holders := Holders(l.held, l.held[id]);
    assert id in holders;
    assert |holders| == |holders - {id}| + 1;
  }

  lemma ReleasedExact(l: Limiter, id: SessionId)
    requires Exact(l)
    ensures Exact(Released(l, id)) && !Underflows(l, id)
  {
    if id in l.held {
      HeldMeansCounted(l, id);
      var l' := Released(l, id);
      assert l.held.Keys == l'.held.Keys + {id};
      forall p: Provider
        ensures GetOr(l'.perProvider, p, 0) == |Holders(l'.held, p)| <= PER_PROVIDER_LIMIT
      {
        if p == l.held[id] {
          assert Holders(l.held, p) == Holders(l'.held, p) + {id};
        } else {
          assert Holders(l'.held, p) == Holders(l.held, p);
        }
      }
    }
  }

  /** A release undoes the reservation it belongs to, and a second release changes nothing. */
  lemma ReleaseUndoesReserve(l: Limiter, provider: Provider, id: SessionId)
    requires Exact(l) && Judge(l, provider, id) == Admit
    ensures Released(Reserved(l, provider, id), id) == l
    ensures Released(Released(Reserved(l, provider, id), id), id) == l
  {
    var l' := Reserved(l, provider, id);
    var l2 := Released(l', id);
    assert l2.held == l.held;
    var before := GetOr(l.perProvider, provider, 0);
    if before == 0 {
      assert provider !in l.perProvider;
      assert l2.perProvider == l.perProvider;
    } else {
      assert l2.perProvider == l.perProvider;
    }
  }

  class ActiveSessionLimiter {
    var held: map<SessionId, Provider>
    var perProvider: map<Provider, nat>

    ghost function State(): Limiter
      reads this
    {
      Limiter(held, perProvider)
    }

    constructor ()
      ensures State() == IDLE
    {
      held, perProvider := map[], map[];
    }

    /** Admits or refuses; a refusal changes nothing. */
    method Reserve(provider: Provider, sessionId: SessionId) returns (verdict: Verdict)
      modifies this
      ensures verdict == Judge(old(State()), provider, sessionId)
      ensures State() == Reserved(old(State()), provider, sessionId)
    {
      if sessionId in held { return DuplicateId; }
      var globalActive := |held|;
      var providerActive := GetOr(perProvider, provider, 0);
      if globalActive >= GLOBAL_LIMIT { return GlobalFull; }
      if providerActive >= PER_PROVIDER_LIMIT { return ProviderFull; }
      held := held[sessionId := provider];
      perProvider := perProvider[provider := providerActive + 1];
      return Admit;
    }

    /** Idempotent. With exact accounting the underflow throw cannot happen. */
    method Release(sessionId: SessionId) returns (released: bool)
      requires Exact(State())
      modifies this
      ensures State() == Released(old(State()), sessionId) && Exact(State())
      ensures released == (sessionId in old(held))
    {
      ReleasedExact(State(), sessionId);
      if sessionId !in held { return false; }
      var provider := held[sessionId];
      held := held - {sessionId};
      var providerActive := GetOr(perProvider, provider, 0);
      if providerActive <= 0 {
        assert false;
      }
      if providerActive == 1 {
        perProvider := perProvider - {provider};
      } else {
        perProvider := perProvider[provider := providerActive - 1];
      }
      return true;
    }
  }
}
