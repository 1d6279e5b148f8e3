/** The pool of etcd clients as a transition system: any number of concurrent Get and
    Return calls, each channel operation and each callback one atomic step. */
module PoolModel {
  const RETRIES := 3
  const MAX_NUM_CACHED_CLIENTS := 10
  const MAX_NUM_OPEN_CLIENTS := 20

  /** An endpoint address; only equality and order matter. */
  type Endpoint = nat

  /** Where one caller stands: inside Get, using its client, or inside Return. */
  datatype Session =
    | Looping(attempt: nat, desired: seq<Endpoint>)
    | Acquiring(attempt: nat, desired: seq<Endpoint>)
    | Constructing(attempt: nat, desired: seq<Endpoint>)
    | NotConstructed(attempt: nat, desired: seq<Endpoint>)
    | Comparing(attempt: nat, desired: seq<Endpoint>, client: nat)
    | Probing(attempt: nat, desired: seq<Endpoint>, client: nat)
    | Unhealthy(attempt: nat, desired: seq<Endpoint>, client: nat)
    | Closing(attempt: nat, desired: seq<Endpoint>, client: nat)
    | Lent(desired: seq<Endpoint>, client: nat)
    | Rejected(client: nat)
    | ClosingReturned(client: nat)
  {
    predicate HasClient() {
      !Looping? && !Acquiring? && !Constructing? && !NotConstructed?
    }

    /** The client is being closed; its token has already been given back. */
    predicate Closes() {
      Closing? || ClosingReturned?
    }

    predicate HoldsToken() {
      !Looping? && !Acquiring? && !Closes()
    }
  }

  datatype Pool = Pool(
    pool: seq<nat>,                        // idle clients, first in first out
    tokens: nat,                           // messages in availableOpenClients
    sessions: map<nat, Session>,
    endpoints: map<nat, seq<Endpoint>>,    // of every client ever created
    open: set<nat>)                        // created and not yet closed

  datatype Step =
    | BeginGet(id: nat, desired: seq<Endpoint>)
    | TakeIdle(id: nat)
    | FindPoolEmpty(id: nat)
    | AcquireToken(id: nat)
    | AcquireTimeout(id: nat)
    | NewClient(id: nat, client: nat, endpoints: seq<Endpoint>)
    | NewClientFails(id: nat)
    | GiveTokenBack(id: nat)
    | Align(id: nat)
    | Probe(id: nat, healthy: bool)
    | Close(id: nat)
    | Return(id: nat)

  // ----- endpoint lists -----

  function Insert(x: Endpoint, s: seq<Endpoint>): seq<Endpoint> {
    if s == [] || x <= s[0] then [x] + s else [s[0]] + Insert(x, s[1..])
  }

  function Sort(s: seq<Endpoint>): seq<Endpoint> {
    if s == [] then [] else Insert(s[0], Sort(s[1..]))
  }

  predicate SameEndpoints(a: seq<Endpoint>, b: seq<Endpoint>) {
    multiset(a) == multiset(b)
  }

  // ----- steps -----

  predicate GivesBack(c: Session) {
    c.NotConstructed? || c.Unhealthy? || c.Rejected?
  }

  predicate Enabled(s: Pool, step: Step) {
    if step.BeginGet? then step.id !in s.sessions
    else
      && step.id in s.sessions
      && var c := s.sessions[step.id];
         match step
         case TakeIdle(_) => c.Looping? && s.pool != []
         case FindPoolEmpty(_) => c.Looping? && s.pool == []
         case AcquireToken(_) => c.Acquiring? && s.tokens > 0
         case AcquireTimeout(_) => c.Acquiring?
         case NewClient(_, client, _) => c.Constructing? && client !in s.endpoints
         case NewClientFails(_) => c.Constructing?
         case GiveTokenBack(_) => GivesBack(c)
         case Align(_) => c.Comparing? && c.client in s.endpoints
         case Probe(_, _) => c.Probing?
         case Close(_) => c.Closes()
         case Return(_) => c.Lent?
  }

  function WithSession(s: Pool, id: nat, c: Session): Pool {
    s.(sessions := s.sessions[id := c])
  }

  function EndSession(s: Pool, id: nat): Pool {
    s.(sessions := s.sessions - {id})
  }

  /** The loop goes on to its next attempt or gives up. */
  function NextAttempt(s: Pool, id: nat, attempt: nat, desired: seq<Endpoint>): Pool {
    if attempt + 1 < RETRIES then WithSession(s, id, Looping(attempt + 1, desired)) else EndSession(s, id)
  }

  /** The non-blocking send: at capacity the token is dropped. */
  function SendToken(s: Pool): Pool {
    if s.tokens < MAX_NUM_OPEN_CLIENTS then s.(tokens := s.tokens + 1) else s
  }

  function AfterGiveBack(s: Pool, id: nat): Pool
    requires id in s.sessions && GivesBack(s.sessions[id])
  {
    var c := s.sessions[id];
    match c
    case NotConstructed(attempt, desired) => NextAttempt(SendToken(s), id, attempt, desired)
    case Unhealthy(attempt, desired, client) => WithSession(SendToken(s), id, Closing(attempt, desired, client))
    case Rejected(client) => WithSession(SendToken(s), id, ClosingReturned(client))
  }

  function AfterClose(s: Pool, id: nat): Pool
    requires id in s.sessions && s.sessions[id].Closes()
  {
    var c := s.sessions[id];
    var t := s.(open := s.open - {c.client});
    if c.Closing? then NextAttempt(t, id, c.attempt, c.desired) else EndSession(t, id)
  }

  function AfterAlign(s: Pool, id: nat): Pool
    requires id in s.sessions && s.sessions[id].Comparing? && s.sessions[id].client in s.endpoints
  {
    var c := s.sessions[id];
    var t := WithSession(s, id, Probing(c.attempt, c.desired, c.client));
    if Sort(c.desired) != Sort(s.endpoints[c.client])
    then t.(endpoints := s.endpoints[c.client := Sort(c.desired)])
    else t
  }

  function AfterReturn(s: Pool, id: nat): Pool
    requires id in s.sessions && s.sessions[id].Lent?
  {
    var c := s.sessions[id];
    if |s.pool| < MAX_NUM_CACHED_CLIENTS then EndSession(s.(pool := s.pool + [c.client]), id)
    else WithSession(s, id, Rejected(c.client))
  }

  function Apply(s: Pool, step: Step): Pool
    requires Enabled(s, step)
  {
    if step.BeginGet? then WithSession(s, step.id, Looping(0, step.desired))
    else
      var c := s.sessions[step.id];
      match step
      case TakeIdle(id) => WithSession(s.(pool := s.pool[1..]), id, Comparing(c.attempt, c.desired, s.pool[0]))
      case FindPoolEmpty(id) => WithSession(s, id, Acquiring(c.attempt, c.desired))
      case AcquireToken(id) => WithSession(s.(tokens := s.tokens - 1), id, Constructing(c.attempt, c.desired))
      case AcquireTimeout(id) => EndSession(s, id)
      case NewClient(id, client, eps) =>
        WithSession(s.(open := s.open + {client}, endpoints := s.endpoints[client := eps]), id,
          Comparing(c.attempt, c.desired, client))
      case NewClientFails(id) => WithSession(s, id, NotConstructed(c.attempt, c.desired))
      case GiveTokenBack(id) => AfterGiveBack(s, id)
      case Align(id) => AfterAlign(s, id)
      case Probe(id, healthy) =>
        WithSession(s, id, if healthy then Lent(c.desired, c.client) else Unhealthy(c.attempt, c.desired, c.client))
      case Close(id) => AfterClose(s, id)
      case Return(id) => AfterReturn(s, id)
  }

  predicate Runnable(s: Pool, steps: seq<Step>)
    decreases |steps|
  {
    steps == [] || (Enabled(s, steps[0]) && Runnable(Apply(s, steps[0]), steps[1..]))
  }

  function Run(s: Pool, steps: seq<Step>): Pool
    requires Runnable(s, steps)
    decreases |steps|
  {
    if steps == [] then s else Run(Apply(s, steps[0]), steps[1..])
  }

  const EMPTY := Pool([], MAX_NUM_OPEN_CLIENTS, map[], map[], {})

  // ----- what a state holds -----

  function Holders(s: Pool): set<nat> {
    set id | id in s.sessions && s.sessions[id].HoldsToken()
  }

  function WithClient(s: Pool): set<nat> {
    set id | id in s.sessions && s.sessions[id].HasClient()
  }

  function ClosingSessions(s: Pool): set<nat> {
    set id | id in s.sessions && s.sessions[id].Closes()
  }

  /** Callers that hold a token but no client yet. */
  function ConstructingSessions(s: Pool): set<nat> {
    set id | id in s.sessions && s.sessions[id].HoldsToken() && !s.sessions[id].HasClient()
  }
}
