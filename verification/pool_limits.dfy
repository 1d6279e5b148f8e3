/** Two states concurrent callers can reach that the pool's bounds do not rule out: any
    number of open clients, and a caller turned away beside idle clients. */
module PoolLimits {
  import opened PoolModel
  import opened PoolSafety

  ghost predicate Reachable(s: Pool) {
    exists steps :: Runnable(EMPTY, steps) && Run(EMPTY, steps) == s
  }

  lemma Reach(s: Pool, step: Step)
    requires Reachable(s) && Enabled(s, step)
    ensures Reachable(Apply(s, step))
  {
    var steps :| Runnable(EMPTY, steps) && Run(EMPTY, steps) == s;
    RunAppend(EMPTY, steps, [step]);
    assert [step][1..] == [];
    assert Runnable(s, [step]) && Run(s, [step]) == Apply(s, step);
    assert Run(EMPTY, steps + [step]) == Apply(s, step);
  }

  lemma ReachEmpty()
    ensures Reachable(EMPTY)
  {
    assert Run(EMPTY, []) == EMPTY;
  }

  lemma ReachableInv(s: Pool)
    requires Reachable(s)
    ensures Inv(s)
  {
    var steps :| Runnable(EMPTY, steps) && Run(EMPTY, steps) == s;
    EmptyInv();
    RunKeepsInv(EMPTY, steps);
  }

  /** A new caller constructs a client and sees its health check end either way. */
  lemma {:induction false} ConstructAndProbe(s: Pool, id: nat, client: nat, healthy: bool)
    requires Reachable(s) && s.pool == [] && s.tokens > 0 && id !in s.sessions && client !in s.endpoints
    ensures Reachable(s.(tokens := s.tokens - 1, open := s.open + {client}, endpoints := s.endpoints[client := []],
                         sessions := s.sessions[id := if healthy then Lent([], client) else Unhealthy(0, [], client)]))
  {
    hide Reachable;
    Reach(s, BeginGet(id, []));
    var s1 := WithSession(s, id, Looping(0, []));
    Reach(s1, FindPoolEmpty(id));
    var s2 := WithSession(s1, id, Acquiring(0, []));
    Reach(s2, AcquireToken(id));
    var s3 := WithSession(s2.(tokens := s.tokens - 1), id, Constructing(0, []));
    Reach(s3, NewClient(id, client, []));
    var s4 := WithSession(s3.(open := s.open + {client}, endpoints := s.endpoints[client := []]), id,
                          Comparing(0, [], client));
    Reach(s4, Align(id));
    var s5 := WithSession(s4, id, Probing(0, [], client));
    Reach(s5, Probe(id, healthy));
    assert Apply(s5, Probe(id, healthy)).sessions ==
           s.sessions[id := if healthy then Lent([], client) else Unhealthy(0, [], client)];
  }

  // ----- unbounded open clients -----

  /** Only ids below `n` are in use. */
  predicate Unused(s: Pool, n: nat) {
    (forall k :: k in s.sessions ==> k < n) && (forall k :: k in s.endpoints ==> k < n)
  }

  /** `n` callers are each still closing an unhealthy client. */
  lemma {:induction false} AllClosing(n: nat) returns (s: Pool)
    ensures Reachable(s) && s.pool == [] && s.tokens == MAX_NUM_OPEN_CLIENTS && Unused(s, n)
    ensures |s.open| == n && forall k :: k in s.sessions ==> s.sessions[k].Closes()
  {
    hide Reachable;
    if n == 0 {
      ReachEmpty();
      s := EMPTY;
    } else {
      var before := AllClosing(n - 1);
      var id := n - 1;
      ReachableOpen(before);
      ConstructAndProbe(before, id, id, false);
      var s1 := before.(tokens := before.tokens - 1, open := before.open + {id},
                        endpoints := before.endpoints[id := []],
                        sessions := before.sessions[id := Unhealthy(0, [], id)]);
      Reach(s1, GiveTokenBack(id));
      s := Apply(s1, GiveTokenBack(id));
    }
  }

  lemma ReachableOpen(s: Pool)
    requires Reachable(s)
    ensures s.open <= s.endpoints.Keys
  {
    ReachableInv(s);
  }

  /** The token comes back before the client is closed, so no bound on open clients holds. */
  lemma OpenIsUnbounded(n: nat) returns (s: Pool)
    ensures Reachable(s) && |s.open| == n && |ClosingSessions(s)| == n
  {
    s := AllClosing(n);
    ReachableInv(s);
    OpenIsExact(s);
    assert ConstructingSessions(s) == {};
  }

  // ----- turned away beside idle clients -----

  /** The wait for a token looks at tokens alone: it can end well exactly while idle
      clients and held tokens leave one of the twenty. */
  lemma WaitingSeesNoIdleClients(s: Pool, id: nat)
    requires Inv(s) && id in s.sessions && s.sessions[id].Acquiring?
    ensures Enabled(s, AcquireToken(id)) <==> |s.pool| + |Holders(s)| < MAX_NUM_OPEN_CLIENTS
    ensures forall step: Step :: step.id == id && Enabled(s, step) ==> step in {AcquireToken(id), AcquireTimeout(id)}
  {
  }

  lemma {:induction false} AllLent(n: nat) returns (s: Pool)
    requires n <= MAX_NUM_OPEN_CLIENTS
    ensures Reachable(s) && s.pool == [] && s.tokens == MAX_NUM_OPEN_CLIENTS - n && Unused(s, n)
    ensures forall k: nat :: k < n ==> k in s.sessions && s.sessions[k].Lent?
  {
    hide Reachable;
    if n == 0 {
      ReachEmpty();
      s := EMPTY;
    } else {
      var before := AllLent(n - 1);
      var id := n - 1;
      ConstructAndProbe(before, id, id, true);
      s := before.(tokens := before.tokens - 1, open := before.open + {id}, endpoints := before.endpoints[id := []],
                   sessions := before.sessions[id := Lent([], id)]);
    }
  }

  /** The caller `id` waits; the first `k` of twenty lent clients have come back. */
  lemma {:induction false} WaitingWhileReturned(id: nat, k: nat) returns (s: Pool)
    requires id == MAX_NUM_OPEN_CLIENTS && k <= MAX_NUM_CACHED_CLIENTS
    ensures Reachable(s) && s.tokens == 0 && |s.pool| == k
    ensures id in s.sessions && s.sessions[id].Acquiring?
    ensures forall j: nat :: k <= j < MAX_NUM_OPEN_CLIENTS ==> j in s.sessions && s.sessions[j].Lent?
  {
    hide Reachable;
    if k == 0 {
      var s0 := AllLent(MAX_NUM_OPEN_CLIENTS);
      Reach(s0, BeginGet(id, []));
      var s1 := WithSession(s0, id, Looping(0, []));
      Reach(s1, FindPoolEmpty(id));
      s := WithSession(s1, id, Acquiring(0, []));
    } else {
      var before := WaitingWhileReturned(id, k - 1);
      Reach(before, Return(k - 1));
      s := Apply(before, Return(k - 1));
    }
  }

  /** A caller can be turned away as one too many while ten clients lie idle. */
  lemma RejectedBesideIdleClients() returns (s: Pool, id: nat)
    ensures Reachable(s) && |s.pool| == MAX_NUM_CACHED_CLIENTS && id in s.sessions && s.sessions[id].Acquiring?
    ensures forall step: Step :: step.id == id && Enabled(s, step) ==> step == AcquireTimeout(id)
  {
    id := MAX_NUM_OPEN_CLIENTS;
    s := WaitingWhileReturned(id, MAX_NUM_CACHED_CLIENTS);
  }
}
