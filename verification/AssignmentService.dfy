/** The assignment service: its tables are fields that each transaction updates in place. */
module AssignmentService {
  import opened Options
  import opened Counting
  import opened Ledger
  import opened LedgerInvariants
  import opened LedgerDecisions

  function OfUserIn(u: Id, tenant: Id, t: ResourceType): UserRow -> bool {
    (r: UserRow) => r.userId == u && r.tenantId == tenant && r.kind == t
  }

  /** The rows counted for a user's summary are the ones its cached counter counts. */
  lemma SummaryIsCounters(l: Tables, u: Id, c: Id, tenant: Id, t: ResourceType)
    requires Consistent(l)
    requires u in l.users && l.users[u].customerId == Some(c) && l.users[u].tenantId == Some(tenant)
    ensures Count(l.userRows, OfUserIn(u, tenant, t)) == UserUsage(l, u, c, t)
  {
    forall r | r in l.userRows ensures OfUserIn(u, tenant, t)(r) == OfUser(u, c, t)(r) {
      assert UserRowLinked(l, r);
    }
    CountSame(l.userRows, OfUserIn(u, tenant, t), OfUser(u, c, t));
    assert UserUsage(l, u, c, t) == Count(l.userRows, OfUser(u, c, t));
  }

  class AssignmentService {
    var resources: set<(ResourceType, Id, Id)>
    var customers: map<Id, Customer>
    var users: map<Id, User>
    var subscriptions: map<Id, Subscription>
    var limits: map<(Id, Id), UserLimit>
    var customerRows: seq<CustomerRow>
    var userRows: seq<UserRow>

    function State(): Tables
      reads this
    {
      Tables(resources, customers, users, subscriptions, limits, customerRows, userRows)
    }

    constructor (l: Tables)
      ensures State() == l
    {
      resources, customers, users, subscriptions := l.resources, l.customers, l.users, l.subscriptions;
      limits, customerRows, userRows := l.limits, l.customerRows, l.userRows;
    }

    method AssignResourceToCustomer(res: Id, t: ResourceType, c: Id, actor: Actor) returns (r: Result<()>)
      modifies this`customerRows, this`customers, this`subscriptions
      ensures r == Check(old(State()), AssignToCustomer(res, t, c, actor))
      ensures r.Ok? <==> old(MayGiveCustomer(State(), res, t, c, actor) && !CustomerHolds(State(), c, t, res))
      ensures State() == Step(old(State()), AssignToCustomer(res, t, c, actor))
      ensures old(Consistent(State())) ==> Consistent(State())
    {
      if Consistent(State()) {
        StepKeeps(State(), AssignToCustomer(res, t, c, actor));
      }
      AssignToCustomerDecided(State(), res, t, c, actor);
      r := CheckAssignToCustomer(State(), res, t, c, actor);
      if r.Ok? {
        customerRows := customerRows + [CustomerRow(c, t, res, actor.tenantId)];
        customers := IncrementCustomer(customers, c, t);
        subscriptions := IncrementSubscription(subscriptions, actor.tenantId, t);
      }
    }

    method AssignResourceToUser(res: Id, t: ResourceType, u: Id, actor: Actor) returns (r: Result<()>)
      modifies this`userRows, this`limits
      ensures r == Check(old(State()), AssignToUser(res, t, u, actor))
      ensures r.Ok? <==> old(MayGiveUser(State(), res, t, u, actor) && !UserHolds(State(), u, t, res))
      ensures State() == Step(old(State()), AssignToUser(res, t, u, actor))
      ensures old(Consistent(State())) ==> Consistent(State())
    {
      if Consistent(State()) {
        StepKeeps(State(), AssignToUser(res, t, u, actor));
      }
      AssignToUserGranted(State(), res, t, u, actor);
      r := CheckAssignToUser(State(), res, t, u, actor);
      if r.Ok? {
        var c := users[u].customerId.value;
        userRows := userRows + [UserRow(u, c, t, res, actor.tenantId)];
        limits := IncrementUser(limits, u, c, t);
      }
    }

    method UnassignResourceFromCustomer(res: Id, t: ResourceType, c: Id, actor: Actor) returns (r: Result<()>)
      modifies this`customerRows, this`customers, this`subscriptions, this`userRows, this`limits
      ensures r == Check(old(State()), UnassignFromCustomer(res, t, c, actor))
      ensures State() == Step(old(State()), UnassignFromCustomer(res, t, c, actor))
      ensures old(Consistent(State())) ==> Consistent(State())
    {
      if Consistent(State()) {
        StepKeeps(State(), UnassignFromCustomer(res, t, c, actor));
      }
      r := CheckUnassignFromCustomer(State(), res, t, c, actor);
      if r.Ok? {
        customerRows := RemoveFirst(customerRows, AtCustomerIn(c, t, res, actor.tenantId));
        var affected := Count(userRows, Below(c, t, res));
        if affected > 0 {
          limits := DecrementUsers(limits, Holders(userRows, c, t, res), c, t);
          userRows := Filter(userRows, Not(Below(c, t, res)));
        }
        customers := DecrementCustomer(customers, c, t);
        subscriptions := DecrementSubscription(subscriptions, actor.tenantId, t);
      }
    }

    method UnassignResourceFromUser(res: Id, t: ResourceType, u: Id, actor: Actor) returns (r: Result<()>)
      modifies this`userRows, this`limits
      ensures r == Check(old(State()), UnassignFromUser(res, t, u, actor))
      ensures State() == Step(old(State()), UnassignFromUser(res, t, u, actor))
      ensures old(Consistent(State())) ==> Consistent(State())
    {
      if Consistent(State()) {
        StepKeeps(State(), UnassignFromUser(res, t, u, actor));
      }
      r := CheckUnassignFromUser(State(), res, t, u, actor);
      if r.Ok? {
        userRows := RemoveFirst(userRows, AtUserIn(u, t, res, actor.tenantId));
        limits := DecrementUser(limits, u, users[u].customerId, t);
      }
    }

    /** The five counts a user's summary reports are the user's cached counters. */
    method GetUserResourceSummary(u: Id, tenant: Id) returns (summary: map<ResourceType, nat>)
      ensures forall t :: t in summary && summary[t] == Count(userRows, OfUserIn(u, tenant, t))
      ensures Consistent(State()) && u in users && users[u].customerId.Some? && users[u].tenantId == Some(tenant) ==>
                forall t :: summary[t] == UserUsage(State(), u, users[u].customerId.value, t)
    {
      summary := map[Devices := Count(userRows, OfUserIn(u, tenant, Devices)),
                     Dashboards := Count(userRows, OfUserIn(u, tenant, Dashboards)),
                     Assets := Count(userRows, OfUserIn(u, tenant, Assets)),
                     FloorPlans := Count(userRows, OfUserIn(u, tenant, FloorPlans)),
                     Automations := Count(userRows, OfUserIn(u, tenant, Automations))];
      assert forall t :: t in summary by {
        forall t: ResourceType ensures t in summary {
          match t case Devices => case Dashboards => case Assets => case FloorPlans => case Automations =>
        }
      }
      if Consistent(State()) && u in users && users[u].customerId.Some? && users[u].tenantId == Some(tenant) {
        forall t {
          SummaryIsCounters(State(), u, users[u].customerId.value, tenant, t);
        }
      }
    }
  }
}
