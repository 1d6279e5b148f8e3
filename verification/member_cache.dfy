/** The cache of member health: every answer is a filter of one recent snapshot. */
module MemberCache {
  import opened Basics

  datatype Member = Member(id: nat, learner: bool)

  datatype HealthCheck = HealthCheck(member: Member, healthy: bool)

  type Health = seq<HealthCheck>

  // ----- filters -----

  function Members(h: Health): seq<Member> {
    if h == [] then [] else Members(h[..|h| - 1]) + [h[|h| - 1].member]
  }

  function WithHealth(h: Health, healthy: bool): seq<Member> {
    if h == [] then []
    else WithHealth(h[..|h| - 1], healthy) + if h[|h| - 1].healthy == healthy then [h[|h| - 1].member] else []
  }

  function Voters(ms: seq<Member>): seq<Member> {
    if ms == [] then [] else Voters(ms[..|ms| - 1]) + if ms[|ms| - 1].learner then [] else [ms[|ms| - 1]]
  }

  datatype Query = All | Voting | Healthy | HealthyVoting | Unhealthy | UnhealthyVoting

  function Filter(q: Query, h: Health): seq<Member> {
    match q
    case All => Members(h)
    case Voting => Voters(Members(h))
    case Healthy => WithHealth(h, true)
    case HealthyVoting => Voters(WithHealth(h, true))
    case Unhealthy => WithHealth(h, false)
    case UnhealthyVoting => Voters(WithHealth(h, false))
  }

  lemma VotersMultiset(a: seq<Member>, b: seq<Member>, c: seq<Member>)
    requires multiset(a) == multiset(b) + multiset(c)
    ensures multiset(Voters(a)) == multiset(Voters(b)) + multiset(Voters(c))
  {
    VoterCounts(a);
    VoterCounts(b);
    VoterCounts(c);
    assert forall m :: multiset(Voters(a))[m] == multiset(Voters(b))[m] + multiset(Voters(c))[m];
  }

  lemma {:induction false} VoterCounts(ms: seq<Member>)
    ensures forall m :: multiset(Voters(ms))[m] == if m.learner then 0 else multiset(ms)[m]
  {
    if ms != [] {
      VoterCounts(ms[..|ms| - 1]);
      assert ms == ms[..|ms| - 1] + [ms[|ms| - 1]];
    }
  }

  /** The healthy and the unhealthy members are together all members, each once. */
  lemma HealthPartitions(h: Health)
    ensures multiset(Filter(All, h)) == multiset(Filter(Healthy, h)) + multiset(Filter(Unhealthy, h))
    ensures multiset(Filter(Voting, h)) == multiset(Filter(HealthyVoting, h)) + multiset(Filter(UnhealthyVoting, h))
  {
    AllPartitions(h);
    VotersMultiset(Members(h), WithHealth(h, true), WithHealth(h, false));
  }

  lemma {:induction false} AllPartitions(h: Health)
    ensures multiset(Members(h)) == multiset(WithHealth(h, true)) + multiset(WithHealth(h, false))
  {
    if h != [] {
      AllPartitions(h[..|h| - 1]);
    }
  }

  /** What each list holds, in terms of single health checks. */
  lemma {:induction false} FiltersAreExact(h: Health, m: Member)
    ensures m in Filter(All, h) <==> exists k :: 0 <= k < |h| && h[k].member == m
    ensures m in Filter(Healthy, h) <==> exists k :: 0 <= k < |h| && h[k].member == m && h[k].healthy
    ensures m in Filter(Unhealthy, h) <==> exists k :: 0 <= k < |h| && h[k].member == m && !h[k].healthy
    ensures m in Filter(Voting, h) <==> m in Filter(All, h) && !m.learner
    ensures m in Filter(HealthyVoting, h) <==> m in Filter(Healthy, h) && !m.learner
    ensures m in Filter(UnhealthyVoting, h) <==> m in Filter(Unhealthy, h) && !m.learner
  {
    VoterCounts(Members(h));
    VoterCounts(WithHealth(h, true));
    VoterCounts(WithHealth(h, false));
    assert forall ms: seq<Member> :: m in ms <==> multiset(ms)[m] > 0;
    ListsAreExact(h, m);
  }

  lemma {:induction false} ListsAreExact(h: Health, m: Member)
    ensures m in Members(h) <==> exists k :: 0 <= k < |h| && h[k].member == m
    ensures forall healthy :: m in WithHealth(h, healthy) <==>
              exists k :: 0 <= k < |h| && h[k] == HealthCheck(m, healthy)
  {
    if h != [] {
      var before, c := h[..|h| - 1], h[|h| - 1];
      ListsAreExact(before, m);
      forall k | 0 <= k < |before| ensures before[k] == h[k] { }
      assert c == h[|h| - 1];
      forall healthy
        ensures m in WithHealth(h, healthy) <==> exists k :: 0 <= k < |h| && h[k] == HealthCheck(m, healthy)
      {
        if k :| 0 <= k < |before| && before[k] == HealthCheck(m, healthy) {
          assert h[k] == HealthCheck(m, healthy);
        }
      }
      if k :| 0 <= k < |before| && before[k].member == m {
        assert h[k].member == m;
      }
    }
  }

  // ----- calls -----

  datatype Cache = Cache(members: Health, lastRefresh: int, refreshInterval: int)

  /** One call: what is asked, when it checks the age, when a fetch is over, and what the
      fetch answers. */
  datatype Call = Call(query: Query, now: int, fetched: int, fetch: Result<Health>)

  predicate ShouldRefresh(c: Cache, now: int) {
    c.lastRefresh + c.refreshInterval < now
  }

  function Refreshed(c: Cache, k: Call): Cache {
    if ShouldRefresh(c, k.now) && k.fetch.Ok? then c.(members := k.fetch.value, lastRefresh := k.fetched) else c
  }

  function Answer(c: Cache, k: Call): Result<seq<Member>> {
    if ShouldRefresh(c, k.now) && k.fetch.Err? then Err else Ok(Filter(k.query, Refreshed(c, k).members))
  }

  function After(c: Cache, calls: seq<Call>): Cache {
    if calls == [] then c else Refreshed(After(c, calls[..|calls| - 1]), calls[|calls| - 1])
  }

  /** The call found the cache too old and fetched a snapshot. */
  predicate Refreshes(c: Cache, calls: seq<Call>, k: nat)
    requires k < |calls|
  {
    ShouldRefresh(After(c, calls[..k]), calls[k].now) && calls[k].fetch.Ok?
  }

  /** The call `j` took a snapshot and none has been taken since, up to call `k`. */
  predicate LatestSnapshot(c: Cache, calls: seq<Call>, j: nat, k: nat)
    requires k < |calls|
  {
    j <= k && Refreshes(c, calls, j) && forall m :: j < m <= k ==> !Refreshes(c, calls, m)
  }

  /** A new cache is as old as the epoch. */
  function NewMemberCache(refreshInterval: int): Cache {
    Cache([], 0, refreshInterval)
  }

  /** Every answer is the filter of one snapshot, and either this call took it or it is no
      older than the interval. */
  lemma AnswersAreRecent(calls: seq<Call>, interval: int, k: nat) returns (j: nat)
    requires k < |calls| && forall m :: 0 <= m < |calls| ==> calls[m].now > interval
    requires Answer(After(NewMemberCache(interval), calls[..k]), calls[k]).Ok?
    ensures LatestSnapshot(NewMemberCache(interval), calls, j, k)
    ensures Answer(After(NewMemberCache(interval), calls[..k]), calls[k]) ==
            Ok(Filter(calls[k].query, calls[j].fetch.value))
    ensures j == k || calls[k].now <= calls[j].fetched + interval
  {
    if ShouldRefresh(After(NewMemberCache(interval), calls[..k]), calls[k].now) {
      j := k;
    } else {
      var last := Snapshot(calls, interval, k);
      j := last.value;
    }
  }

  /** What the cache holds after some calls: the last snapshot one of them took, if any. */
  lemma {:induction false} Snapshot(calls: seq<Call>, interval: int, k: nat) returns (last: Option<nat>)
    requires k <= |calls|
    ensures var c := NewMemberCache(interval);
            match last
            case None => After(c, calls[..k]) == c
            case Some(j) =>
              && j < k && Refreshes(c, calls, j) && (forall m :: j < m < k ==> !Refreshes(c, calls, m))
              && After(c, calls[..k]) == Cache(calls[j].fetch.value, calls[j].fetched, interval)
  {
    var c := NewMemberCache(interval);
    if k == 0 {
      last := None;
    } else {
      last := Snapshot(calls, interval, k - 1);
      assert calls[..k][..k - 1] == calls[..k - 1];
      if Refreshes(c, calls, k - 1) {
        last := Some(k - 1);
      }
    }
  }

  /** A call whose refresh failed leaves no trace: whatever is called afterwards, the cache
      and so every answer is what it would be without that call. */
  lemma {:induction false} FailedRefreshKeeps(c: Cache, before: seq<Call>, failed: Call, later: seq<Call>)
    requires Answer(After(c, before), failed).Err?
    ensures After(c, before + [failed] + later) == After(c, before + later)
  {
    if later == [] {
      assert before + [failed] + later == before + [failed] && before + later == before;
      assert (before + [failed])[..|before|] == before;
    } else {
      var n := |later| - 1;
      assert (before + [failed] + later)[..|before| + 1 + n] == before + [failed] + later[..n];
      assert (before + later)[..|before| + n] == before + later[..n];
      FailedRefreshKeeps(c, before, failed, later[..n]);
    }
  }

  /** Within the interval after a snapshot nothing is fetched and every call is answered. */
  lemma YoungIsKept(c: Cache, k: Call)
    requires k.now <= c.lastRefresh + c.refreshInterval
    ensures Refreshed(c, k) == c && Answer(c, k) == Ok(Filter(k.query, c.members))
  {
  }

  /** After it every call fetches one. */
  lemma OldIsReplaced(c: Cache, k: Call)
    requires k.now > c.lastRefresh + c.refreshInterval
    ensures k.fetch.Ok? ==> Refreshed(c, k) == Cache(k.fetch.value, k.fetched, c.refreshInterval)
    ensures Answer(c, k) == if k.fetch.Ok? then Ok(Filter(k.query, k.fetch.value)) else Err
  {
  }

  /** Between two snapshots the answers are filters of the same one. */
  lemma SameSnapshot(c: Cache, calls: seq<Call>, i: nat, k: nat)
    requires i <= k < |calls| && forall m :: i < m <= k ==> !Refreshes(c, calls, m)
    ensures Refreshed(After(c, calls[..i]), calls[i]).members == Refreshed(After(c, calls[..k]), calls[k]).members
    decreases k - i
  {
    if i < k {
      SameSnapshot(c, calls, i, k - 1);
      assert calls[..k][..k - 1] == calls[..k - 1];
      assert !Refreshes(c, calls, k);
    }
  }

  // ----- the code -----

  class CachedMembers {
    var members: Health
    var lastRefresh: int
    const refreshInterval: int

    constructor (refreshInterval: int)
      ensures View() == NewMemberCache(refreshInterval)
    {
      this.refreshInterval := refreshInterval;
      members, lastRefresh := [], 0;
    }

    function View(): Cache
      reads this
    {
      Cache(members, lastRefresh, refreshInterval)
    }

    method Refresh(now: int, fetched: int, fetch: Result<Health>) returns (ok: bool)
      modifies this`members, this`lastRefresh
      ensures forall q :: View() == Refreshed(old(View()), Call(q, now, fetched, fetch))
      ensures ok <==> !(ShouldRefresh(old(View()), now) && fetch.Err?)
    {
      if lastRefresh + refreshInterval < now {
        if fetch.Err? {
          return false;
        }
        members := fetch.value;
        lastRefresh := fetched;
      }
      return true;
    }

    method ConvertToMemberList() returns (ms: seq<Member>)
      ensures ms == Members(members)
    {
      ms := [];
      for k := 0 to |members|
        invariant ms == Members(members[..k])
      {
        assert members[..k + 1][..k] == members[..k];
        ms := ms + [members[k].member];
      }
      assert members[..|members|] == members;
    }

    method GetMembers(healthy: bool) returns (ms: seq<Member>)
      ensures ms == WithHealth(members, healthy)
    {
      ms := [];
      for k := 0 to |members|
        invariant ms == WithHealth(members[..k], healthy)
      {
        assert members[..k + 1][..k] == members[..k];
        if members[k].healthy == healthy {
          ms := ms + [members[k].member];
        }
      }
      assert members[..|members|] == members;
    }

    method FilterVotingMembers(ms: seq<Member>) returns (voters: seq<Member>)
      ensures voters == Voters(ms)
    {
      voters := [];
      for k := 0 to |ms|
        invariant voters == Voters(ms[..k])
      {
        assert ms[..k + 1][..k] == ms[..k];
        if !ms[k].learner {
          voters := voters + [ms[k]];
        }
      }
      assert ms[..|ms|] == ms;
    }

    /** The six list methods, each behind a refresh. */
    method Ask(k: Call) returns (r: Result<seq<Member>>)
      modifies this`members, this`lastRefresh
      ensures View() == Refreshed(old(View()), k) && r == Answer(old(View()), k)
    {
      var ok := Refresh(k.now, k.fetched, k.fetch);
      assert View() == Refreshed(old(View()), Call(k.query, k.now, k.fetched, k.fetch));
      if !ok {
        return Err;
      }
      var ms;
      match k.query {
        case All => ms := ConvertToMemberList();
        case Voting => ms := ConvertToMemberList(); ms := FilterVotingMembers(ms);
        case Healthy => ms := GetMembers(true);
        case HealthyVoting => ms := GetMembers(true); ms := FilterVotingMembers(ms);
        case Unhealthy => ms := GetMembers(false);
        case UnhealthyVoting => ms := GetMembers(false); ms := FilterVotingMembers(ms);
      }
      return Ok(ms);
    }
  }
}
