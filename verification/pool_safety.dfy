/** What every interleaving of Get and Return keeps. */
module PoolSafety {
  import opened Basics
  import opened PoolModel

  /** Every token is free, stands for an idle client, or is held by one caller. */
  predicate TokensInv(s: Pool) {
    s.tokens + |s.pool| + |Holders(s)| == MAX_NUM_OPEN_CLIENTS
  }

  predicate IdleDistinct(pool: seq<nat>) {
    forall i, j :: 0 <= i < j < |pool| ==> pool[i] != pool[j]
  }

  /** The client a caller has. */
  function Owned(s: Pool, id: nat): Option<nat> {
    if id in s.sessions && s.sessions[id].HasClient() then Some(s.sessions[id].client) else None
  }

  /** Every open client is idle once or belongs to one caller, never both. */
  ghost predicate PlacesInv(s: Pool) {
    && s.open <= s.endpoints.Keys
    && IdleDistinct(s.pool)
    && (forall c :: c in s.pool ==> c in s.open)
    && (forall id :: Owned(s, id).Some? ==> Owned(s, id).value in s.open && Owned(s, id).value !in s.pool)
    && (forall a, b :: Owned(s, a).Some? && Owned(s, a) == Owned(s, b) ==> a == b)
    && (forall c :: c in s.open ==> c in s.pool || exists id :: Owned(s, id) == Some(c))
  }

  predicate CountInv(s: Pool) {
    |s.open| == |s.pool| + |WithClient(s)|
  }

  /** A client that is being checked or lent has the endpoints its caller asked for. */
  predicate AlignedInv(s: Pool) {
    forall id :: id in s.sessions && (s.sessions[id].Probing? || s.sessions[id].Lent?) ==>
      s.sessions[id].client in s.endpoints && SameEndpoints(s.endpoints[s.sessions[id].client], s.sessions[id].desired)
  }

  ghost predicate Inv(s: Pool) {
    && |s.pool| <= MAX_NUM_CACHED_CLIENTS
    && TokensInv(s) && PlacesInv(s) && CountInv(s) && AlignedInv(s)
  }

  // ----- endpoint lists -----

  lemma {:induction false} InsertAdds(x: Endpoint, s: seq<Endpoint>)
    ensures multiset(Insert(x, s)) == multiset(s) + multiset{x}
  {
    if s != [] && x > s[0] {
      InsertAdds(x, s[1..]);
      assert s == [s[0]] + s[1..];
    }
  }

  lemma {:induction false} InsertCommutes(x: Endpoint, y: Endpoint, s: seq<Endpoint>)
    ensures Insert(x, Insert(y, s)) == Insert(y, Insert(x, s))
  {
    if s == [] || (x <= s[0] && y <= s[0]) {
      assert ([x] + s)[1..] == s && ([y] + s)[1..] == s;
      assert Insert(x, s) == [x] + s && Insert(y, s) == [y] + s;
      assert x == y || Insert(x, [y] + s) == Insert(y, [x] + s);
    } else if x <= s[0] {
      assert ([x] + s)[1..] == s;
      assert Insert(y, s)[0] == s[0];
    } else if y <= s[0] {
      assert ([y] + s)[1..] == s;
      assert Insert(x, s)[0] == s[0];
    } else {
      InsertCommutes(x, y, s[1..]);
      assert Insert(y, s)[1..] == Insert(y, s[1..]) && Insert(x, s)[1..] == Insert(x, s[1..]);
    }
  }

  lemma {:induction false} SortKeeps(s: seq<Endpoint>)
    ensures multiset(Sort(s)) == multiset(s)
  {
    if s != [] {
      SortKeeps(s[1..]);
      InsertAdds(s[0], Sort(s[1..]));
      assert s == [s[0]] + s[1..];
    }
  }

  lemma {:induction false} SortPulls(s: seq<Endpoint>, k: nat)
    requires k < |s|
    ensures Sort(s) == Insert(s[k], Sort(s[..k] + s[k + 1..]))
  {
    if k == 0 {
      assert s[..0] + s[1..] == s[1..];
    } else {
      SortPulls(s[1..], k - 1);
      var rest := s[..k] + s[k + 1..];
      assert rest[1..] == s[1..][..k - 1] + s[1..][k..];
      InsertCommutes(s[0], s[k], Sort(rest[1..]));
    }
  }

  /** Comparing the sorted lists is comparing the endpoints up to order. */
  lemma {:induction false} SortDecides(a: seq<Endpoint>, b: seq<Endpoint>)
    ensures Sort(a) == Sort(b) <==> SameEndpoints(a, b)
  {
    SortKeeps(a);
    SortKeeps(b);
    if SameEndpoints(a, b) {
      SameSorts(a, b);
    }
  }

  lemma {:induction false} SameSorts(a: seq<Endpoint>, b: seq<Endpoint>)
    requires SameEndpoints(a, b)
    ensures Sort(a) == Sort(b)
  {
    if a == [] {
      assert |multiset(b)| == 0;
    } else {
      assert a[0] in multiset(b);
      var k :| 0 <= k < |b| && b[k] == a[0];
      var rest := b[..k] + b[k + 1..];
      DropOne(a, 0);
      DropOne(b, k);
      assert a[..0] + a[1..] == a[1..];
      SameSorts(a[1..], rest);
      SortPulls(b, k);
    }
  }

  lemma DropOne(s: seq<Endpoint>, k: nat)
    requires k < |s|
    ensures multiset(s[..k] + s[k + 1..]) == multiset(s) - multiset{s[k]}
  {
    assert s == s[..k] + [s[k]] + s[k + 1..];
  }

  // ----- places -----

  /** The callers other than `id` keep what they have. */
  ghost predicate OthersKeep(s: Pool, t: Pool, id: nat) {
    && s.endpoints.Keys <= t.endpoints.Keys
    && forall k :: k != id ==> Owned(t, k) == Owned(s, k)
  }

  lemma PlacesKept(s: Pool, t: Pool, id: nat)
    requires PlacesInv(s) && CountInv(s) && OthersKeep(s, t, id)
    requires t.pool == s.pool && t.open == s.open && Owned(t, id) == Owned(s, id)
    ensures PlacesInv(t) && CountInv(t)
  {
    assert forall k :: Owned(t, k) == Owned(s, k);
    forall k ensures k in WithClient(s) <==> k in WithClient(t) {
      assert Owned(t, k) == Owned(s, k);
    }
    assert WithClient(t) == WithClient(s);
    forall c | c in t.open && c !in t.pool ensures exists k :: Owned(t, k) == Some(c) {
      var k :| Owned(s, k) == Some(c);
      assert Owned(t, k) == Some(c);
    }
  }

  lemma PlacesTaken(s: Pool, t: Pool, id: nat)
    requires PlacesInv(s) && CountInv(s) && OthersKeep(s, t, id)
    requires s.pool != [] && t.pool == s.pool[1..] && t.open == s.open
    requires Owned(s, id).None? && Owned(t, id) == Some(s.pool[0])
    ensures PlacesInv(t) && CountInv(t)
  {
    WithClientGains(s, t, id);
    assert s.pool == [s.pool[0]] + t.pool;
    forall c | c in t.open && c !in t.pool ensures exists k :: Owned(t, k) == Some(c) {
      if c in s.pool {
        assert Owned(t, id) == Some(c);
      } else {
        var k :| Owned(s, k) == Some(c);
        assert Owned(t, k) == Some(c);
      }
    }
  }

  lemma PlacesPut(s: Pool, t: Pool, id: nat)
    requires PlacesInv(s) && CountInv(s) && OthersKeep(s, t, id)
    requires Owned(s, id).Some? && t.pool == s.pool + [Owned(s, id).value] && t.open == s.open
    requires Owned(t, id).None?
    ensures PlacesInv(t) && CountInv(t)
  {
    WithClientGains(t, s, id);
    forall c | c in t.open && c !in t.pool ensures exists k :: Owned(t, k) == Some(c) {
      var k :| Owned(s, k) == Some(c);
      assert Owned(t, k) == Some(c);
    }
  }

  lemma PlacesNew(s: Pool, t: Pool, id: nat, client: nat)
    requires PlacesInv(s) && CountInv(s) && OthersKeep(s, t, id)
    requires client !in s.endpoints && client in t.endpoints && t.pool == s.pool && t.open == s.open + {client}
    requires Owned(s, id).None? && Owned(t, id) == Some(client)
    ensures PlacesInv(t) && CountInv(t)
  {
    WithClientGains(s, t, id);
    forall c | c in t.open && c !in t.pool ensures exists k :: Owned(t, k) == Some(c) {
      if c == client {
        assert Owned(t, id) == Some(c);
      } else {
        var k :| Owned(s, k) == Some(c);
        assert Owned(t, k) == Some(c);
      }
    }
  }

  lemma PlacesClosed(s: Pool, t: Pool, id: nat)
    requires PlacesInv(s) && CountInv(s) && OthersKeep(s, t, id)
    requires Owned(s, id).Some? && t.pool == s.pool && t.open == s.open - {Owned(s, id).value}
    requires Owned(t, id).None?
    ensures PlacesInv(t) && CountInv(t)
  {
    WithClientGains(t, s, id);
    forall c | c in t.open && c !in t.pool ensures exists k :: Owned(t, k) == Some(c) {
      var k :| Owned(s, k) == Some(c);
      assert Owned(t, k) == Some(c);
    }
  }

  lemma WithClientGains(s: Pool, t: Pool, id: nat)
    requires forall k :: k != id ==> Owned(t, k) == Owned(s, k)
    requires Owned(s, id).None? && Owned(t, id).Some?
    ensures |WithClient(t)| == |WithClient(s)| + 1
  {
    forall k ensures k in WithClient(t) <==> k in WithClient(s) + {id} {
      assert k != id ==> Owned(t, k) == Owned(s, k);
    }
    assert WithClient(t) == WithClient(s) + {id};
  }

  lemma StepPlaces(s: Pool, step: Step)
    requires PlacesInv(s) && CountInv(s) && Enabled(s, step)
    ensures PlacesInv(Apply(s, step)) && CountInv(Apply(s, step))
  {
    hide PlacesInv, CountInv;
    var t := Apply(s, step);
    assert OthersKeep(s, t, step.id);
    match step
    case TakeIdle(id) => PlacesTaken(s, t, id);
    case NewClient(id, client, _) => PlacesNew(s, t, id, client);
    case Close(id) => PlacesClosed(s, t, id);
    case Return(id) => if |s.pool| < MAX_NUM_CACHED_CLIENTS { PlacesPut(s, t, id); } else { PlacesKept(s, t, id); }
    case _ => PlacesKept(s, t, step.id);
  }

  // ----- tokens -----

  function Tokens(s: Pool, id: nat): nat {
    if id in s.sessions && s.sessions[id].HoldsToken() then 1 else 0
  }

  lemma HoldersWithout(s: Pool, id: nat)
    ensures |Holders(s) - {id}| == |Holders(s)| - Tokens(s, id)
  {
  }

  lemma HoldersChange(s: Pool, t: Pool, id: nat)
    requires forall k :: k != id ==> Tokens(t, k) == Tokens(s, k)
    ensures |Holders(t)| - Tokens(t, id) == |Holders(s)| - Tokens(s, id)
  {
    forall k ensures k in Holders(t) - {id} <==> k in Holders(s) - {id} {
      assert k != id ==> Tokens(t, k) == Tokens(s, k);
    }
    assert Holders(t) - {id} == Holders(s) - {id};
    HoldersWithout(s, id);
    HoldersWithout(t, id);
  }

  /** No token is ever dropped. */
  lemma TokenFits(s: Pool, id: nat)
    requires TokensInv(s) && id in s.sessions && GivesBack(s.sessions[id])
    ensures s.tokens < MAX_NUM_OPEN_CLIENTS
  {
    assert id in Holders(s);
  }

  lemma StepTokens(s: Pool, step: Step)
    requires TokensInv(s) && |s.pool| <= MAX_NUM_CACHED_CLIENTS && Enabled(s, step)
    ensures TokensInv(Apply(s, step)) && |Apply(s, step).pool| <= MAX_NUM_CACHED_CLIENTS
  {
    hide Holders;
    HoldersChange(s, Apply(s, step), step.id);
    if step.GiveTokenBack? {
      TokenFits(s, step.id);
    }
  }

  // ----- endpoints -----

  /** Only the caller that has a client changes its endpoints. */
  lemma EndpointsOfOthers(s: Pool, step: Step, id: nat)
    requires PlacesInv(s) && Enabled(s, step) && step.id != id && Owned(s, id).Some?
    ensures Owned(s, id).value in s.endpoints
    ensures var t := Apply(s, step);
            Owned(s, id).value in t.endpoints && t.endpoints[Owned(s, id).value] == s.endpoints[Owned(s, id).value]
  {
    assert Owned(s, id) != Owned(s, step.id);
  }

  lemma StepAligned(s: Pool, step: Step)
    requires PlacesInv(s) && AlignedInv(s) && Enabled(s, step)
    ensures AlignedInv(Apply(s, step))
  {
    hide PlacesInv, Apply, Enabled, SameEndpoints;
    var t := Apply(s, step);
    forall id | id in t.sessions && (t.sessions[id].Probing? || t.sessions[id].Lent?)
      ensures t.sessions[id].client in t.endpoints &&
              SameEndpoints(t.endpoints[t.sessions[id].client], t.sessions[id].desired)
    {
      if id != step.id {
        OthersUntouched(s, step, id);
        EndpointsOfOthers(s, step, id);
      } else {
        OwnAligned(s, step);
      }
    }
  }

  lemma OwnAligned(s: Pool, step: Step)
    requires AlignedInv(s) && Enabled(s, step)
    ensures var t := Apply(s, step);
            step.id in t.sessions && (t.sessions[step.id].Probing? || t.sessions[step.id].Lent?) ==>
              t.sessions[step.id].client in t.endpoints &&
              SameEndpoints(t.endpoints[t.sessions[step.id].client], t.sessions[step.id].desired)
  {
    if step.Align? {
      var c := s.sessions[step.id];
      SortKeeps(c.desired);
      SortDecides(c.desired, s.endpoints[c.client]);
    }
  }

  lemma StepInv(s: Pool, step: Step)
    requires Inv(s) && Enabled(s, step)
    ensures Inv(Apply(s, step))
  {
    hide TokensInv, PlacesInv, CountInv, AlignedInv;
    StepTokens(s, step);
    StepPlaces(s, step);
    StepAligned(s, step);
  }

  // ----- runs -----

  lemma EmptyInv()
    ensures Inv(EMPTY)
  {
  }

  lemma {:induction false} RunKeepsInv(s: Pool, steps: seq<Step>)
    requires Inv(s) && Runnable(s, steps)
    ensures Inv(Run(s, steps))
    decreases |steps|
  {
    if steps != [] {
      StepInv(s, steps[0]);
      RunKeepsInv(Apply(s, steps[0]), steps[1..]);
    }
  }

  lemma {:induction false} RunAppend(s: Pool, first: seq<Step>, rest: seq<Step>)
    requires Runnable(s, first)
    ensures Runnable(s, first + rest) <==> Runnable(Run(s, first), rest)
    ensures Runnable(s, first + rest) ==> Run(s, first + rest) == Run(Run(s, first), rest)
    decreases |first|
  {
    if first == [] {
      assert first + rest == rest;
    } else {
      assert (first + rest)[1..] == first[1..] + rest;
      RunAppend(Apply(s, first[0]), first[1..], rest);
    }
  }

  lemma RunLast(s: Pool, steps: seq<Step>)
    requires steps != [] && Runnable(s, steps)
    ensures Runnable(s, steps[..|steps| - 1])
    ensures Enabled(Run(s, steps[..|steps| - 1]), steps[|steps| - 1])
    ensures Run(s, steps) == Apply(Run(s, steps[..|steps| - 1]), steps[|steps| - 1])
  {
    var before, last := steps[..|steps| - 1], steps[|steps| - 1];
    assert steps == before + [last];
    PrefixRunnable(s, steps, |steps| - 1);
    RunAppend(s, before, [last]);
    assert [last][1..] == [];
  }

  lemma {:induction false} PrefixRunnable(s: Pool, steps: seq<Step>, k: nat)
    requires Runnable(s, steps) && k <= |steps|
    ensures Runnable(s, steps[..k])
    decreases k
  {
    if k > 0 {
      assert steps[..k][1..] == steps[1..][..k - 1];
      PrefixRunnable(Apply(s, steps[0]), steps[1..], k - 1);
    }
  }

  /** In every reachable state the tokens add up, the pool stays within its bound, giving
      a token back really adds one, and every open client is in exactly one place. */
  lemma Conservation(steps: seq<Step>)
    requires Runnable(EMPTY, steps)
    ensures var s := Run(EMPTY, steps);
            && s.tokens + |s.pool| + |Holders(s)| == 20
            && |s.pool| <= 10
            && (forall id :: Enabled(s, GiveTokenBack(id)) ==> Apply(s, GiveTokenBack(id)).tokens == s.tokens + 1)
            && PlacesInv(s)
  {
    EmptyInv();
    RunKeepsInv(EMPTY, steps);
    var s := Run(EMPTY, steps);
    forall id | Enabled(s, GiveTokenBack(id)) ensures Apply(s, GiveTokenBack(id)).tokens == s.tokens + 1 {
      TokenFits(s, id);
    }
  }

  // ----- what Get hands out -----

  predicate InGet(c: Session) {
    !c.Rejected? && !c.ClosingReturned?
  }

  /** The caller's latest Get began at step `i` and asked for these endpoints. */
  predicate Began(steps: seq<Step>, i: nat, id: nat, desired: seq<Endpoint>) {
    && i < |steps| && steps[i] == BeginGet(id, desired)
    && forall m :: i < m < |steps| ==> !(steps[m].BeginGet? && steps[m].id == id)
  }

  /** The step `j` was a successful health check of this client by this caller, at which
      time the client had the wanted endpoints, and the caller did nothing since. */
  predicate Passed(steps: seq<Step>, j: nat, id: nat, desired: seq<Endpoint>, client: nat) {
    && j < |steps| && steps[j] == Probe(id, true)
    && (forall m :: j < m < |steps| ==> steps[m].id != id)
    && Runnable(EMPTY, steps[..j])
    && var s := Run(EMPTY, steps[..j]);
       && id in s.sessions && s.sessions[id].Probing? && s.sessions[id].client == client
       && s.sessions[id].desired == desired
       && client in s.endpoints && SameEndpoints(s.endpoints[client], desired)
  }

  lemma Later(before: seq<Step>, last: Step, i: nat, j: nat, id: nat, desired: seq<Endpoint>, client: nat)
    requires Began(before, i, id, desired) && !(last.BeginGet? && last.id == id)
    ensures Began(before + [last], i, id, desired)
    ensures Passed(before, j, id, desired, client) && last.id != id ==> Passed(before + [last], j, id, desired, client)
  {
    assert j < |before| ==> (before + [last])[..j] == before[..j];
  }

  lemma OthersUntouched(s: Pool, step: Step, id: nat)
    requires Enabled(s, step) && step.id != id
    ensures id in Apply(s, step).sessions <==> id in s.sessions
    ensures id in s.sessions ==> Apply(s, step).sessions[id] == s.sessions[id]
  {
  }

  lemma InGetKept(s: Pool, step: Step, id: nat)
    requires Enabled(s, step) && step.id == id && !step.BeginGet?
    requires id in Apply(s, step).sessions && InGet(Apply(s, step).sessions[id])
    ensures id in s.sessions && InGet(s.sessions[id]) && s.sessions[id].desired == Apply(s, step).sessions[id].desired
    ensures Apply(s, step).sessions[id].Lent? ==>
              step == Probe(id, true) && s.sessions[id].Probing? &&
              s.sessions[id].client == Apply(s, step).sessions[id].client
  {
  }

  lemma {:induction false} GetBegan(steps: seq<Step>, id: nat) returns (i: nat)
    requires Runnable(EMPTY, steps)
    requires id in Run(EMPTY, steps).sessions && InGet(Run(EMPTY, steps).sessions[id])
    ensures Began(steps, i, id, Run(EMPTY, steps).sessions[id].desired)
    decreases |steps|
  {
    hide Enabled, Apply;
    RunLast(EMPTY, steps);
    var before, last := steps[..|steps| - 1], steps[|steps| - 1];
    if last.BeginGet? && last.id == id {
      BeginsLooping(Run(EMPTY, before), last);
      i := |steps| - 1;
    } else {
      if last.id == id {
        InGetKept(Run(EMPTY, before), last, id);
      } else {
        OthersUntouched(Run(EMPTY, before), last, id);
      }
      i := GetBegan(before, id);
      assert steps == before + [last];
      Later(before, last, i, 0, id, Run(EMPTY, steps).sessions[id].desired, 0);
    }
  }

  lemma BeginsLooping(s: Pool, step: Step)
    requires Enabled(s, step) && step.BeginGet?
    ensures step.id in Apply(s, step).sessions && Apply(s, step).sessions[step.id] == Looping(0, step.desired)
  {
  }

  /** A caller that has a client got it from its own current Get, which checked it last
      thing, with the endpoints it asked for; and the client still has them. */
  lemma {:induction false} HandedOutIsChecked(steps: seq<Step>, id: nat) returns (i: nat, j: nat)
    requires Runnable(EMPTY, steps)
    requires id in Run(EMPTY, steps).sessions && Run(EMPTY, steps).sessions[id].Lent?
    ensures var c := Run(EMPTY, steps).sessions[id];
            && i < j && Began(steps, i, id, c.desired) && Passed(steps, j, id, c.desired, c.client)
            && c.client in Run(EMPTY, steps).endpoints
            && SameEndpoints(Run(EMPTY, steps).endpoints[c.client], c.desired)
    decreases |steps|
  {
    hide Enabled, Apply, SameEndpoints;
    EmptyInv();
    RunKeepsInv(EMPTY, steps);
    RunLast(EMPTY, steps);
    var before, last := steps[..|steps| - 1], steps[|steps| - 1];
    assert steps == before + [last];
    if last.id == id {
      j := |steps| - 1;
      RunKeepsInv(EMPTY, before);
      if last.BeginGet? {
        BeginsLooping(Run(EMPTY, before), last);
      } else {
        InGetKept(Run(EMPTY, before), last, id);
      }
      i := GetBegan(before, id);
      Later(before, last, i, 0, id, Run(EMPTY, steps).sessions[id].desired, 0);
    } else {
      OthersUntouched(Run(EMPTY, before), last, id);
      i, j := HandedOutIsChecked(before, id);
      Later(before, last, i, j, id, Run(EMPTY, steps).sessions[id].desired, Run(EMPTY, steps).sessions[id].client);
    }
  }

  // ----- how many clients are open -----

  /** The open clients beside the bound of twenty are exactly the ones being closed. */
  lemma OpenIsExact(s: Pool)
    requires Inv(s)
    ensures |s.open| + s.tokens + |ConstructingSessions(s)| == MAX_NUM_OPEN_CLIENTS + |ClosingSessions(s)|
    ensures |s.open| <= MAX_NUM_OPEN_CLIENTS <==> |ClosingSessions(s)| <= s.tokens + |ConstructingSessions(s)|
  {
    HoldersSplit(s);
    ClientsSplit(s);
    hide Holders, WithClient, ConstructingSessions, ClosingSessions;
  }

  function UsingSessions(s: Pool): set<nat> {
    set id | id in s.sessions && s.sessions[id].HoldsToken() && s.sessions[id].HasClient()
  }

  lemma HoldersSplit(s: Pool)
    ensures |Holders(s)| == |UsingSessions(s)| + |ConstructingSessions(s)|
  {
    assert Holders(s) == UsingSessions(s) + ConstructingSessions(s);
  }

  lemma ClientsSplit(s: Pool)
    ensures |WithClient(s)| == |UsingSessions(s)| + |ClosingSessions(s)|
  {
    assert WithClient(s) == UsingSessions(s) + ClosingSessions(s);
  }
}
