/** assignResourceToCustomer with its snapshot read and its commit as separate steps, so that
    requests interleave: by how much the tenant quota can be overrun, and no further. */
module QuotaRace {
  import opened Options
  import opened Ledger

  /** `Loaded` holds the usage read with the subscription; `Passed` has been through the quota gate. */
  datatype Phase = Loaded(snapshot: int) | Passed

  datatype State = State(usage: int, requests: map<Id, Phase>)

  datatype Event =
    | Load(id: Id)       // the subscription is read
    | Gate(id: Id)       // the quota gate judges the snapshot
    | Reject(id: Id)     // another gate refuses the request
    | Commit(id: Id)     // row saved, counter incremented
    | Unassign           // some other request decrements the counter

  /** At most k requests are in flight at a time. */
  predicate Enabled(s: State, e: Event, k: nat) {
    match e
    case Load(id) => id !in s.requests && |s.requests| < k
    case Gate(id) => id in s.requests && s.requests[id].Loaded?
    case Reject(id) => id in s.requests
    case Commit(id) => id in s.requests && s.requests[id].Passed?
    case Unassign => true
  }

  function Next(s: State, e: Event, limit: Option<int>): State
    requires e.Gate? ==> e.id in s.requests && s.requests[e.id].Loaded?
  {
    match e
    case Load(id) => s.(requests := s.requests[id := Loaded(s.usage)])
    case Gate(id) =>
      if LimitReached(limit, s.requests[id].snapshot) then s.(requests := s.requests - {id})
      else s.(requests := s.requests[id := Passed])
    case Reject(id) => s.(requests := s.requests - {id})
    case Commit(id) => State(s.usage + 1, s.requests - {id})
    case Unassign => s.(usage := Max(0, s.usage - 1))
  }

  ghost predicate Legal(s: State, events: seq<Event>, limit: Option<int>, k: nat)
    decreases |events|
  {
    events != [] ==>
      Enabled(s, events[0], k) && Legal(Next(s, events[0], limit), events[1..], limit, k)
  }

  ghost function Run(s: State, events: seq<Event>, limit: Option<int>, k: nat): State
    requires Legal(s, events, limit, k)
    decreases |events|
  {
    if events == [] then s else Run(Next(s, events[0], limit), events[1..], limit, k)
  }

  function PassedRequests(s: State): set<Id> {
    set id | id in s.requests && s.requests[id].Passed?
  }

  /** The requests that have passed the quota gate or will, whatever happens meanwhile. */
  function WillPass(s: State, limit: Option<int>): set<Id> {
    set id | id in s.requests && (s.requests[id].Passed? || !LimitReached(limit, s.requests[id].snapshot))
  }

  ghost predicate Bounded(s: State, limit: int, k: nat) {
    |s.requests| <= k && s.usage + |WillPass(s, Some(limit))| <= limit + k - 1
  }

  lemma SubsetSize(a: set<Id>, b: set<Id>)
    requires a <= b
    ensures |a| <= |b|
  {
    assert b == a + (b - a);
  }

  lemma LoadBounded(s: State, id: Id, limit: int, k: nat)
    requires Bounded(s, limit, k) && Enabled(s, Load(id), k)
    ensures Bounded(Next(s, Load(id), Some(limit)), limit, k)
  {
    var m := Next(s, Load(id), Some(limit));
    assert m.requests.Keys == s.requests.Keys + {id};
    if LimitReached(Some(limit), s.usage) {
      assert WillPass(m, Some(limit)) == WillPass(s, Some(limit));
    } else {
      SubsetSize(WillPass(m, Some(limit)), m.requests.Keys);
    }
  }

  lemma StepBounded(s: State, e: Event, limit: int, k: nat)
    requires Bounded(s, limit, k) && Enabled(s, e, k) && (s.usage >= 0 || !e.Unassign?)
    ensures Bounded(Next(s, e, Some(limit)), limit, k)
  {
    var m := Next(s, e, Some(limit));
    var before, after := WillPass(s, Some(limit)), WillPass(m, Some(limit));
    match e
    case Load(id) => LoadBounded(s, id, limit, k);
    case Gate(id) =>
      assert m.requests.Keys == if id in m.requests then s.requests.Keys else s.requests.Keys - {id};
      assert after == before;
    case Reject(id) =>
      assert m.requests.Keys == s.requests.Keys - {id};
      assert after == before - {id};
    case Commit(id) =>
      assert m.requests.Keys == s.requests.Keys - {id};
      assert id in before && after == before - {id};
    case Unassign =>
      assert after == before;
  }

  lemma {:induction false} RunBounded(s: State, events: seq<Event>, limit: int, k: nat)
    requires Bounded(s, limit, k) && s.usage >= 0 && Legal(s, events, Some(limit), k)
    ensures Bounded(Run(s, events, Some(limit), k), limit, k)
    decreases |events|
  {
    if events != [] {
      StepBounded(s, events[0], limit, k);
      RunBounded(Next(s, events[0], Some(limit)), events[1..], limit, k);
    }
  }

  /** With at most k requests in flight, usage plus the passed but uncommitted requests never
      exceeds limit + k - 1; one at a time, the quota is exact. */
  lemma QuotaOverrun(usage: int, events: seq<Event>, limit: int, k: nat)
    requires k >= 1 && 0 <= usage <= limit
    requires Legal(State(usage, map[]), events, Some(limit), k)
    ensures var s := Run(State(usage, map[]), events, Some(limit), k);
            && s.usage + |PassedRequests(s)| <= limit + k - 1
            && (k == 1 ==> s.usage <= limit)
  {
    var start := State(usage, map[]);
    assert WillPass(start, Some(limit)) == {};
    RunBounded(start, events, limit, k);
    var s := Run(start, events, Some(limit), k);
    SubsetSize(PassedRequests(s), WillPass(s, Some(limit)));
  }

  // ---- The ledger's operations as events -------------------------------------------

  lemma AssignmentAlone(usage: int, limit: Option<int>)
    requires !LimitReached(limit, usage)
    ensures Legal(State(usage, map[]), [Load(0), Gate(0), Commit(0)], limit, 1)
    ensures Run(State(usage, map[]), [Load(0), Gate(0), Commit(0)], limit, 1) == State(usage + 1, map[])
  {
    var loaded := State(usage, map[0 := Loaded(usage)]);
    var passed := State(usage, map[0 := Passed]);
    assert Next(State(usage, map[]), Load(0), limit) == loaded;
    assert Next(loaded, Gate(0), limit) == passed;
    assert Next(passed, Commit(0), limit) == State(usage + 1, map[]);
    assert [Load(0), Gate(0), Commit(0)][1..] == [Gate(0), Commit(0)] && [Gate(0), Commit(0)][1..] == [Commit(0)];
    assert Legal(passed, [Commit(0)], limit, 1) && Run(passed, [Commit(0)], limit, 1) == State(usage + 1, map[]);
    assert Legal(loaded, [Gate(0), Commit(0)], limit, 1);
  }

  /** The request is a granted one on this tenant's counter of this kind. */
  predicate Touches(l: Tables, q: Request, tenant: Id, t: ResourceType) {
    Check(l, q).Ok? && (q.AssignToCustomer? || q.UnassignFromCustomer?) && q.actor.tenantId == tenant && q.kind == t
  }

  lemma SubscriptionsAfter(l: Tables, q: Request)
    ensures Step(l, q).subscriptions
         == if Check(l, q).Err? then l.subscriptions
            else if q.AssignToCustomer? then IncrementSubscription(l.subscriptions, q.actor.tenantId, q.kind)
            else if q.UnassignFromCustomer? then DecrementSubscription(l.subscriptions, q.actor.tenantId, q.kind)
            else l.subscriptions
  {
  }

  lemma ReadAfter(subs: map<Id, Subscription>, at: Id, kind: ResourceType, tenant: Id, t: ResourceType)
    requires tenant in subs
    ensures var up, down := IncrementSubscription(subs, at, kind), DecrementSubscription(subs, at, kind);
            var usage := Read(subs[tenant].usage, t);
            && tenant in up && Read(up[tenant].usage, t) == (if at == tenant && kind == t then usage + 1 else usage)
            && tenant in down && Read(down[tenant].usage, t) == if at == tenant && kind == t then Max(0, usage - 1) else usage
  {
  }

  lemma GrantedBelowLimit(l: Tables, q: Request, tenant: Id, t: ResourceType)
    requires Touches(l, q, tenant, t) && q.AssignToCustomer?
    ensures tenant in l.subscriptions
    ensures !LimitReached(SubscriptionLimit(l.subscriptions[tenant], t), Read(l.subscriptions[tenant].usage, t))
  {
  }

  /** What a ledger request does to one usage counter of one tenant is such a run, with nothing else in flight. */
  lemma RequestIsRun(l: Tables, q: Request, tenant: Id, t: ResourceType) returns (events: seq<Event>)
    requires tenant in l.subscriptions
    ensures tenant in Step(l, q).subscriptions
    ensures var limit := SubscriptionLimit(l.subscriptions[tenant], t);
            var start := State(Read(l.subscriptions[tenant].usage, t), map[]);
            && Legal(start, events, limit, 1)
            && Run(start, events, limit, 1) == State(Read(Step(l, q).subscriptions[tenant].usage, t), map[])
  {
    SubscriptionsAfter(l, q);
    ReadAfter(l.subscriptions, q.actor.tenantId, q.kind, tenant, t);
    if !Touches(l, q, tenant, t) {
      events := [];
    } else if q.AssignToCustomer? {
      GrantedBelowLimit(l, q, tenant, t);
      AssignmentAlone(Read(l.subscriptions[tenant].usage, t), SubscriptionLimit(l.subscriptions[tenant], t));
      events := [Load(0), Gate(0), Commit(0)];
    } else {
      events := [Unassign];
    }
  }

  // ---- The bound is attained -------------------------------------------------------

  lemma {:induction false} AppendEvent(s: State, events: seq<Event>, e: Event, limit: Option<int>, k: nat)
    requires Legal(s, events, limit, k) && Enabled(Run(s, events, limit, k), e, k)
    ensures Legal(s, events + [e], limit, k)
    ensures Run(s, events + [e], limit, k) == Next(Run(s, events, limit, k), e, limit)
    decreases |events|
  {
    if events == [] {
      assert [] + [e] == [e] && [e][1..] == [];
    } else {
      AppendEvent(Next(s, events[0], limit), events[1..], e, limit, k);
      assert (events + [e])[1..] == events[1..] + [e];
    }
  }

  /** Requests 0 to k - 1 are in flight: those below i have passed, the others hold the snapshot. */
  ghost predicate InFlight(s: State, usage: int, snapshot: int, i: nat, k: nat) {
    && s.usage == usage && |s.requests| == k
    && (forall id: Id :: id in s.requests <==> id < k)
    && (forall id :: id in s.requests ==> s.requests[id] == if id < i then Passed else Loaded(snapshot))
  }

  /** Requests i to k - 1 are left to commit. */
  ghost predicate Committing(s: State, usage: int, i: nat, k: nat) {
    && s.usage == usage
    && (forall id: Id :: id in s.requests <==> i <= id < k)
    && (forall id :: id in s.requests ==> s.requests[id] == Passed)
  }

  lemma LoadAll(start: State, limit: int, k: nat) returns (events: seq<Event>)
    requires start.requests == map[]
    ensures Legal(start, events, Some(limit), k)
    ensures InFlight(Run(start, events, Some(limit), k), start.usage, start.usage, 0, k)
  {
    events := [];
    var i := 0;
    while i < k
      invariant i <= k && Legal(start, events, Some(limit), k)
      invariant InFlight(Run(start, events, Some(limit), k), start.usage, start.usage, 0, i)
    {
      AppendEvent(start, events, Load(i), Some(limit), k);
      events := events + [Load(i)];
      i := i + 1;
    }
  }

  lemma GateAll(start: State, loads: seq<Event>, u: int, limit: int, k: nat) returns (events: seq<Event>)
    requires u < limit && Legal(start, loads, Some(limit), k)
    requires InFlight(Run(start, loads, Some(limit), k), u, u, 0, k)
    ensures Legal(start, events, Some(limit), k)
    ensures InFlight(Run(start, events, Some(limit), k), u, u, k, k)
  {
    events := loads;
    var i := 0;
    while i < k
      invariant i <= k && Legal(start, events, Some(limit), k)
      invariant InFlight(Run(start, events, Some(limit), k), u, u, i, k)
    {
      AppendEvent(start, events, Gate(i), Some(limit), k);
      events := events + [Gate(i)];
      i := i + 1;
    }
  }

  lemma CommitAll(start: State, gates: seq<Event>, u: int, limit: int, k: nat) returns (events: seq<Event>)
    requires Legal(start, gates, Some(limit), k)
    requires Committing(Run(start, gates, Some(limit), k), u, 0, k)
    ensures Legal(start, events, Some(limit), k)
    ensures Run(start, events, Some(limit), k).usage == u + k
  {
    events := gates;
    var i := 0;
    while i < k
      invariant i <= k && Legal(start, events, Some(limit), k)
      invariant Committing(Run(start, events, Some(limit), k), u + i, i, k)
    {
      AppendEvent(start, events, Commit(i), Some(limit), k);
      events := events + [Commit(i)];
      i := i + 1;
    }
  }

  /** For every limit and every k there is a run that overruns the quota by exactly k - 1. */
  lemma OverrunAttained(limit: int, k: nat) returns (events: seq<Event>)
    requires limit >= 1 && k >= 1
    ensures Legal(State(limit - 1, map[]), events, Some(limit), k)
    ensures Run(State(limit - 1, map[]), events, Some(limit), k).usage == limit + k - 1
  {
    var start := State(limit - 1, map[]);
    var loads := LoadAll(start, limit, k);
    var gates := GateAll(start, loads, limit - 1, limit, k);
    events := CommitAll(start, gates, limit - 1, limit, k);
  }
}
