/** The pool object: Get and Return as ordered code, each undisturbed. */
module ClientPool {
  import opened Basics
  import opened PoolModel
  import opened PoolSafety

  /** What the callbacks answer in one attempt: the client a construction yields with its
      endpoints, if it succeeds, and whether the health check passes. */
  datatype Attempt = Attempt(minted: Option<nat>, endpoints: seq<Endpoint>, healthy: bool)

  /** Constructed clients are new objects. */
  predicate Minted(s: Pool, attempts: seq<Attempt>, from: nat) {
    && |attempts| == 3
    && (forall k :: from <= k < 3 && attempts[k].minted.Some? ==> attempts[k].minted.value !in s.endpoints)
    && (forall i, k :: from <= i < k < 3 && attempts[i].minted.Some? ==> attempts[i].minted != attempts[k].minted)
  }

  function Rank(c: Session): nat {
    match c
    case Looping(_, _) => 9
    case Acquiring(_, _) => 8
    case Constructing(_, _) => 7
    case NotConstructed(_, _) => 6
    case Comparing(_, _, _) => 5
    case Probing(_, _, _) => 4
    case Unhealthy(_, _, _) => 3
    case Closing(_, _, _) => 2
    case _ => 0
  }

  /** The caller is inside Get; constructions not yet used up stay new. */
  predicate Getting(s: Pool, id: nat, attempts: seq<Attempt>) {
    && id in s.sessions && Rank(s.sessions[id]) > 0 && s.sessions[id].attempt < RETRIES
    && Minted(s, attempts, s.sessions[id].attempt + if Rank(s.sessions[id]) >= 6 then 0 else 1)
    && (s.sessions[id].HasClient() ==> s.sessions[id].client in s.endpoints)
    && (forall c :: c in s.pool ==> c in s.endpoints)
  }

  /** The next step of an undisturbed Get. */
  function NextStep(s: Pool, id: nat, attempts: seq<Attempt>): (step: Step)
    requires Getting(s, id, attempts)
    ensures Enabled(s, step) && step.id == id
  {
    var c := s.sessions[id];
    var a := attempts[c.attempt];
    match c
    case Looping(_, _) => if s.pool != [] then TakeIdle(id) else FindPoolEmpty(id)
    case Acquiring(_, _) => if s.tokens > 0 then AcquireToken(id) else AcquireTimeout(id)
    case Constructing(_, _) => if a.minted.Some? then NewClient(id, a.minted.value, a.endpoints) else NewClientFails(id)
    case Comparing(_, _, _) => Align(id)
    case Probing(_, _, _) => Probe(id, a.healthy)
    case Closing(_, _, _) => Close(id)
    case _ => GiveTokenBack(id)
  }

  /** Decreases with every step of a Get. */
  function StepsLeft(s: Pool, id: nat): int {
    if id in s.sessions && Rank(s.sessions[id]) > 0
    then 10 * (RETRIES - s.sessions[id].attempt) + Rank(s.sessions[id]) else 0
  }

  /** An undisturbed Get, driven to its end. */
  function Drive(s: Pool, id: nat, attempts: seq<Attempt>): (t: Pool)
    requires id in s.sessions ==> s.sessions[id].Lent? || Getting(s, id, attempts)
    ensures id in t.sessions ==> t.sessions[id].Lent?
    decreases StepsLeft(s, id)
  {
    if id !in s.sessions || s.sessions[id].Lent? then s
    else Drive(Apply(s, NextStep(s, id, attempts)), id, attempts)
  }

  lemma {:induction false} DriveIsRun(s: Pool, id: nat, attempts: seq<Attempt>) returns (steps: seq<Step>)
    requires id in s.sessions ==> s.sessions[id].Lent? || Getting(s, id, attempts)
    ensures Runnable(s, steps) && Run(s, steps) == Drive(s, id, attempts)
    ensures forall k :: 0 <= k < |steps| ==> steps[k].id == id
    decreases StepsLeft(s, id)
  {
    if id !in s.sessions || s.sessions[id].Lent? {
      steps := [];
    } else {
      var rest := DriveIsRun(Apply(s, NextStep(s, id, attempts)), id, attempts);
      steps := [NextStep(s, id, attempts)] + rest;
      assert steps[1..] == rest;
    }
  }

  lemma DriveOn(s: Pool, id: nat, attempts: seq<Attempt>)
    requires Getting(s, id, attempts)
    ensures var t := Apply(s, NextStep(s, id, attempts));
            && (id in t.sessions ==> t.sessions[id].Lent? || Getting(t, id, attempts))
            && Drive(s, id, attempts) == Drive(t, id, attempts)
  {
  }

  function Least(a: int, b: int): int {
    if a < b then a else b
  }

  /** The attempt ends well: it finds an idle client or makes one, and the client is
      healthy. */
  predicate Serves(attempts: seq<Attempt>, idle: nat, k: nat) {
    k < |attempts| && attempts[k].healthy && (k < idle || attempts[k].minted.Some?)
  }

  /** The first attempt to end well yields the client: the next idle one, those before it
      having been closed for their tokens, or a new one for a token. */
  predicate ServedBy(s: Pool, attempts: seq<Attempt>, k: nat, client: nat, t: Pool) {
    && Serves(attempts, |s.pool|, k) && (forall j :: 0 <= j < k ==> !Serves(attempts, |s.pool|, j))
    && if k < |s.pool|
       then client == s.pool[k] && t.pool == s.pool[k + 1..] && t.tokens == Least(20, s.tokens + k)
       else && attempts[k].minted == Some(client) && t.pool == []
            && t.tokens == Least(20, s.tokens + |s.pool|) - 1
  }

  class EtcdClientPool {
    var pool: seq<nat>
    var availableOpenClients: nat
    var endpoints: map<nat, seq<Endpoint>>
    var open: set<nat>
    ghost var sessions: map<nat, Session>

    constructor ()
      ensures View() == EMPTY
    {
      pool, availableOpenClients, endpoints, open, sessions := [], MAX_NUM_OPEN_CLIENTS, map[], {}, map[];
    }

    ghost function View(): Pool
      reads this
    {
      Pool(pool, availableOpenClients, sessions, endpoints, open)
    }

    method ReturnClosedClient()
      modifies this`availableOpenClients
      ensures View() == SendToken(old(View()))
    {
      if availableOpenClients < MAX_NUM_OPEN_CLIENTS {
        availableOpenClients := availableOpenClients + 1;
      }
    }

    /** Get without interference.  `desired` is what endpointsFunc answers. */
    method Get(id: nat, desired: Result<seq<Endpoint>>, attempts: seq<Attempt>) returns (r: Result<nat>)
      requires id !in sessions && Minted(View(), attempts, 0) && forall c :: c in pool ==> c in endpoints
      requires availableOpenClients <= MAX_NUM_OPEN_CLIENTS
      modifies this
      ensures desired.Err? ==> r.Err? && View() == old(View())
      ensures r.Err? <==>
                || desired.Err? || (|old(pool)| == 0 && old(availableOpenClients) == 0)
                || forall k :: 0 <= k < 3 ==> !Serves(attempts, |old(pool)|, k)
      ensures r.Ok? ==> r.value in endpoints && multiset(endpoints[r.value]) == multiset(desired.value)
      ensures r.Ok? ==> exists k :: 0 <= k < 3 && ServedBy(old(View()), attempts, k, r.value, View())
      ensures desired.Ok? ==>
                && View() == Drive(Apply(old(View()), BeginGet(id, desired.value)), id, attempts)
                && r == if id in sessions then Ok(sessions[id].client) else Err
    {
      hide Drive, NextStep, Getting, Spent, Tried, ServedBy, Serves;
      if desired.Err? {
        return Err;
      }
      Begins(old(View()), id, desired.value, attempts);
      ghost var start := Apply(old(View()), BeginGet(id, desired.value));
      hide Apply, Enabled;
      NoneSpent(View(), View().(sessions := sessions[id := Looping(0, desired.value)]), attempts);
      sessions := sessions[id := Looping(0, desired.value)];
      for i := 0 to RETRIES
        invariant i < RETRIES ==>
                    id in sessions && sessions[id] == Looping(i, desired.value) && Getting(View(), id, attempts)
        invariant i == RETRIES ==> id !in sessions
        invariant Spent(old(View()), attempts, i, View()) && availableOpenClients <= MAX_NUM_OPEN_CLIENTS
        invariant Drive(View(), id, attempts) == Drive(start, id, attempts)
      {
        ghost var before := View();
        var client, go := Attempt(id, i, desired.value, attempts);
        SpentNext(old(View()), attempts, i, before, View(), client, go);
        if client.Some? || !go {
          DriveEnd(View(), id, attempts);
          return if client.Some? then Ok(client.value) else Err;
        }
      }
      AllSpent(old(View()), attempts, View());
      DriveEnd(View(), id, attempts);
      return Err;
    }

    /** One round of the loop: it yields a healthy client, or goes on, or cannot. */
    method Attempt(id: nat, i: nat, desired: seq<Endpoint>, attempts: seq<Attempt>)
      returns (client: Option<nat>, go: bool)
      requires id in sessions && sessions[id] == Looping(i, desired) && Getting(View(), id, attempts)
      requires availableOpenClients <= MAX_NUM_OPEN_CLIENTS
      modifies this
      ensures Tried(old(View()), attempts, i, View(), client, go)
      ensures client.Some? ==>
                && go && id in sessions && sessions[id] == Lent(desired, client.value)
                && client.value in endpoints && multiset(endpoints[client.value]) == multiset(desired)
      ensures client.None? && go && i + 1 < RETRIES ==>
                id in sessions && sessions[id] == Looping(i + 1, desired) && Getting(View(), id, attempts)
      ensures client.None? && (!go || i + 1 == RETRIES) ==> id !in sessions
      ensures Drive(View(), id, attempts) == Drive(old(View()), id, attempts)
    {
      hide Drive, NextStep;
      client, go := Acquire(id, i, desired, attempts);
      if client.Some? {
        go := true;
        var healthy := Check(id, i, desired, client.value, attempts);
        if !healthy {
          client := None;
        }
      }
    }

    /** An idle client or a new one.  Without a client the loop goes on unless the wait for
        a token timed out. */
    method Acquire(id: nat, i: nat, desired: seq<Endpoint>, attempts: seq<Attempt>)
          returns (client: Option<nat>, go: bool)
      requires id in sessions && sessions[id] == Looping(i, desired) && Getting(View(), id, attempts)
      requires availableOpenClients <= MAX_NUM_OPEN_CLIENTS
      modifies this
      ensures |old(pool)| > 0 ==>
                && client == Some(old(pool)[0]) && pool == old(pool)[1..]
                && availableOpenClients == old(availableOpenClients)
      ensures |old(pool)| == 0 ==>
                && pool == [] && go == (old(availableOpenClients) > 0)
                && client == (if go then attempts[i].minted else None)
                && availableOpenClients == old(availableOpenClients) - if client.Some? then 1 else 0
      ensures client.Some? ==>
                id in sessions && sessions[id] == Comparing(i, desired, client.value) && Getting(View(), id, attempts)
      ensures client.None? && go && i + 1 < RETRIES ==>
                id in sessions && sessions[id] == Looping(i + 1, desired) && Getting(View(), id, attempts)
      ensures client.None? && (!go || i + 1 == RETRIES) ==> id !in sessions
      ensures Drive(View(), id, attempts) == Drive(old(View()), id, attempts)
    {
      hide Drive;
      DriveOn(View(), id, attempts);
      if |pool| > 0 {
        client := Some(pool[0]);
        pool := pool[1..];
        sessions := sessions[id := Comparing(i, desired, client.value)];
        return client, true;
      }
      sessions := sessions[id := Acquiring(i, desired)];
      go := TakeToken(id, i, desired, attempts);
      if !go {
        return None, false;
      }
      client := CreateClient(id, i, desired, attempts);
    }

    /** Waits for a token; without one the wait times out. */
    method TakeToken(id: nat, i: nat, desired: seq<Endpoint>, attempts: seq<Attempt>) returns (taken: bool)
      requires id in sessions && sessions[id] == Acquiring(i, desired) && Getting(View(), id, attempts)
      modifies this
      ensures taken <==> old(availableOpenClients) > 0
      ensures availableOpenClients == old(availableOpenClients) - (if taken then 1 else 0) && pool == old(pool)
      ensures if !taken then id !in sessions
              else id in sessions && sessions[id] == Constructing(i, desired) && Getting(View(), id, attempts)
      ensures Drive(View(), id, attempts) == Drive(old(View()), id, attempts)
    {
      hide Drive;
      DriveOn(View(), id, attempts);
      if availableOpenClients == 0 {
        sessions := sessions - {id};
        return false;
      }
      availableOpenClients := availableOpenClients - 1;
      sessions := sessions[id := Constructing(i, desired)];
      return true;
    }

    /** A new client, or the token goes back. */
    method CreateClient(id: nat, i: nat, desired: seq<Endpoint>, attempts: seq<Attempt>) returns (client: Option<nat>)
      requires id in sessions && sessions[id] == Constructing(i, desired) && Getting(View(), id, attempts)
      requires availableOpenClients < MAX_NUM_OPEN_CLIENTS
      modifies this
      ensures client == attempts[i].minted && pool == old(pool)
      ensures availableOpenClients == old(availableOpenClients) + if client.Some? then 0 else 1
      ensures client.Some? ==>
                id in sessions && sessions[id] == Comparing(i, desired, client.value) && Getting(View(), id, attempts)
      ensures client.None? && i + 1 < RETRIES ==>
                id in sessions && sessions[id] == Looping(i + 1, desired) && Getting(View(), id, attempts)
      ensures client.None? && i + 1 == RETRIES ==> id !in sessions
      ensures Drive(View(), id, attempts) == Drive(old(View()), id, attempts)
    {
      hide Drive;
      DriveOn(View(), id, attempts);
      client := attempts[i].minted;
      if client.None? {
        sessions := sessions[id := NotConstructed(i, desired)];
        DriveOn(View(), id, attempts);
        ReturnClosedClient();
        sessions := NextAttempt(View(), id, i, desired).sessions;
      } else {
        endpoints := endpoints[client.value := attempts[i].endpoints];
        open := open + {client.value};
        sessions := sessions[id := Comparing(i, desired, client.value)];
      }
    }

    /** Sets the endpoints if they changed and checks the client; an unhealthy one gives
        its token back first and is closed then. */
    method Check(id: nat, i: nat, desired: seq<Endpoint>, client: nat, attempts: seq<Attempt>) returns (healthy: bool)
      requires id in sessions && sessions[id] == Comparing(i, desired, client) && Getting(View(), id, attempts)
      requires availableOpenClients <= MAX_NUM_OPEN_CLIENTS
      modifies this
      ensures healthy == attempts[i].healthy && pool == old(pool)
      ensures availableOpenClients == Least(20, old(availableOpenClients) + if healthy then 0 else 1)
      ensures healthy ==> id in sessions && sessions[id] == Lent(desired, client)
      ensures healthy ==> client in endpoints && multiset(endpoints[client]) == multiset(desired)
      ensures !healthy && i + 1 < RETRIES ==>
                id in sessions && sessions[id] == Looping(i + 1, desired) && Getting(View(), id, attempts)
      ensures !healthy && i + 1 == RETRIES ==> id !in sessions
      ensures Drive(View(), id, attempts) == Drive(old(View()), id, attempts)
    {
      hide Drive;
      DriveOn(View(), id, attempts);
      SetEndpoints(id, i, desired, client);
      DriveOn(View(), id, attempts);
      healthy := attempts[i].healthy;
      if healthy {
        sessions := sessions[id := Lent(desired, client)];
        return;
      }
      sessions := sessions[id := Unhealthy(i, desired, client)];
      DriveOn(View(), id, attempts);
      ReturnClosedClient();
      sessions := sessions[id := Closing(i, desired, client)];
      DriveOn(View(), id, attempts);
      open := open - {client};
      sessions := NextAttempt(View(), id, i, desired).sessions;
    }

    method SetEndpoints(id: nat, i: nat, desired: seq<Endpoint>, client: nat)
      requires id in sessions && sessions[id] == Comparing(i, desired, client) && client in endpoints
      modifies this`endpoints, this`sessions
      ensures View() == Apply(old(View()), Align(id)) && id in sessions && sessions[id] == Probing(i, desired, client)
      ensures client in endpoints && multiset(endpoints[client]) == multiset(desired)
    {
      var sorted := Sort(desired);
      var current := Sort(endpoints[client]);
      SortKeeps(desired);
      SortDecides(desired, endpoints[client]);
      if sorted != current {
        endpoints := endpoints[client := sorted];
      }
      sessions := sessions[id := Probing(i, desired, client)];
    }

    /** Back to the pool, or closed when the pool is full. */
    method Return(id: nat, client: nat)
      requires id in sessions && sessions[id].Lent? && sessions[id].client == client
      modifies this
      ensures if |old(pool)| < 10
              then pool == old(pool) + [client] && open == old(open) &&
              availableOpenClients == old(availableOpenClients)
              else && pool == old(pool) && open == old(open) - {client}
                   && (old(availableOpenClients) < 20 ==> availableOpenClients == old(availableOpenClients) + 1)
      ensures var steps := if |old(pool)| < MAX_NUM_CACHED_CLIENTS then [PoolModel.Return(id)]
                           else [PoolModel.Return(id), GiveTokenBack(id), Close(id)];
              Runnable(old(View()), steps) && View() == Run(old(View()), steps)
    {
      ReturnRuns(View(), id);
      hide Runnable, Run;
      if |pool| < MAX_NUM_CACHED_CLIENTS {
        pool := pool + [client];
        sessions := sessions - {id};
      } else {
        sessions := sessions[id := Rejected(client)];
        ReturnClosedClient();
        sessions := sessions[id := ClosingReturned(client)];
        open := open - {client};
        sessions := sessions - {id};
      }
    }
  }

  /** One attempt, on the idle clients and free tokens. */
  predicate Tried(s: Pool, attempts: seq<Attempt>, i: nat, t: Pool, client: Option<nat>, go: bool) {
    && i < |attempts| && s.tokens <= 20
    && var healthy := attempts[i].healthy;
       if s.pool != [] then
         && go && client == (if healthy then Some(s.pool[0]) else None) && t.pool == s.pool[1..]
         && t.tokens == if healthy then s.tokens else Least(20, s.tokens + 1)
       else if s.tokens == 0 then !go && client == None && t.pool == [] && t.tokens == 0
       else
         && go && client == (if healthy then attempts[i].minted else None) && t.pool == []
         && t.tokens == if client.Some? then s.tokens - 1 else s.tokens
  }

  /** So many attempts ended badly: each used up an idle client for its token, or nothing. */
  predicate Spent(s: Pool, attempts: seq<Attempt>, i: nat, t: Pool) {
    && |attempts| == 3 && t.tokens <= 20
    && t.pool == s.pool[Least(i, |s.pool|)..] && t.tokens == Least(20, s.tokens + Least(i, |s.pool|))
    && (forall k :: 0 <= k < i ==> !Serves(attempts, |s.pool|, k))
    && (i > 0 && s.pool == [] ==> s.tokens > 0)
  }

  lemma NoneSpent(s: Pool, t: Pool, attempts: seq<Attempt>)
    requires |attempts| == 3 && s.tokens <= 20 && t.pool == s.pool && t.tokens == s.tokens
    ensures Spent(s, attempts, 0, t)
  {
  }

  lemma SpentNext(s: Pool, attempts: seq<Attempt>, i: nat, t: Pool, u: Pool, client: Option<nat>, go: bool)
    requires i < 3 && Spent(s, attempts, i, t) && Tried(t, attempts, i, u, client, go)
    ensures u.tokens <= 20
    ensures client.Some? ==> go && ServedBy(s, attempts, i, client.value, u) && Serves(attempts, |s.pool|, i)
    ensures client.None? && go ==> Spent(s, attempts, i + 1, u)
    ensures !go ==> client.None? && |s.pool| == 0 && s.tokens == 0
    ensures client.Some? || (client.None? && go) ==> |s.pool| > 0 || s.tokens > 0
  {
  }

  lemma AllSpent(s: Pool, attempts: seq<Attempt>, t: Pool)
    requires Spent(s, attempts, 3, t)
    ensures forall k :: 0 <= k < 3 ==> !Serves(attempts, |s.pool|, k)
  {
  }

  lemma DriveEnd(s: Pool, id: nat, attempts: seq<Attempt>)
    requires id in s.sessions ==> s.sessions[id].Lent?
    ensures Drive(s, id, attempts) == s
  {
  }

  lemma ReturnRuns(s: Pool, id: nat)
    requires id in s.sessions && s.sessions[id].Lent?
    ensures |s.pool| < MAX_NUM_CACHED_CLIENTS ==>
              Runnable(s, [Return(id)]) &&
              Run(s, [Return(id)]) == EndSession(s.(pool := s.pool + [s.sessions[id].client]), id)
    ensures var steps := [Return(id), GiveTokenBack(id), Close(id)];
            |s.pool| >= MAX_NUM_CACHED_CLIENTS ==>
              Runnable(s, steps) &&
              Run(s, steps) == EndSession(SendToken(s).(open := s.open - {s.sessions[id].client}), id)
  {
    if |s.pool| >= MAX_NUM_CACHED_CLIENTS {
      RunThree(s, Return(id), GiveTokenBack(id), Close(id));
      var t := Apply(Apply(Apply(s, Return(id)), GiveTokenBack(id)), Close(id));
      assert t.sessions == s.sessions - {id};
    } else {
      assert [Return(id)][1..] == [];
    }
  }

  lemma RunThree(s: Pool, a: Step, b: Step, c: Step)
    requires Enabled(s, a) && Enabled(Apply(s, a), b) && Enabled(Apply(Apply(s, a), b), c)
    ensures Runnable(s, [a, b, c]) && Run(s, [a, b, c]) == Apply(Apply(Apply(s, a), b), c)
  {
    hide Enabled, Apply;
    var s2 := Apply(Apply(s, a), b);
    assert [a, b, c][1..] == [b, c] && [b, c][1..] == [c] && [c][1..] == [];
    assert Runnable(s2, [c]) && Run(s2, [c]) == Run(Apply(s2, c), []);
    assert Runnable(Apply(s, a), [b, c]) && Run(Apply(s, a), [b, c]) == Run(s2, [c]);
  }

  lemma Begins(s: Pool, id: nat, desired: seq<Endpoint>, attempts: seq<Attempt>)
    requires id !in s.sessions && Minted(s, attempts, 0) && forall c :: c in s.pool ==> c in s.endpoints
    ensures var t := s.(sessions := s.sessions[id := Looping(0, desired)]);
            Enabled(s, BeginGet(id, desired)) && Apply(s, BeginGet(id, desired)) == t && Getting(t, id, attempts)
  {
  }
}
