/** What the gates guarantee over whole runs, and that they refuse nothing they granted before. */
module LedgerAccess {
  import opened Options
  import opened Counting
  import opened Ledger
  import opened LedgerInvariants

  // ---- Every row was permitted -----------------------------------------------------

  /** The kind's permission is among the names. */
  ghost predicate GrantsKind(names: set<string>, t: ResourceType) {
    || (t == Devices && "devices" in names)
    || (t == Dashboards && "dashboards" in names)
    || (t == Assets && "assets" in names)
    || (t == FloorPlans && "floor_plans" in names)
    || (t == Automations && "automations" in names)
  }

  /** An active customer granted the kind, under an active subscription whose plan includes it. */
  ghost predicate CustomerEntitled(l: Tables, c: Id, tenant: Id, t: ResourceType) {
    && c in l.customers && l.customers[c].active && l.customers[c].tenantId == tenant
    && GrantsKind(l.customers[c].granted, t)
    && tenant in l.subscriptions && l.subscriptions[tenant].active
    && !(t in l.subscriptions[tenant].features && !l.subscriptions[tenant].features[t])
  }

  ghost predicate UserEntitled(l: Tables, u: Id, t: ResourceType) {
    u in l.users && GrantsKind(l.users[u].rolePermissions + l.users[u].directPermissions, t)
  }

  /** Each row names a resource of its own tenant and an entitled holder. */
  ghost predicate Permitted(l: Tables) {
    && (forall r :: r in l.customerRows ==>
          (r.kind, r.resourceId, r.tenantId) in l.resources && CustomerEntitled(l, r.customerId, r.tenantId, r.kind))
    && (forall r :: r in l.userRows ==>
          && (r.kind, r.resourceId, r.tenantId) in l.resources
          && CustomerEntitled(l, r.customerId, r.tenantId, r.kind) && UserEntitled(l, r.userId, r.kind))
  }

  lemma EntitledStays(l: Tables, m: Tables)
    requires SameSettings(l, m)
    ensures forall c, tenant, t :: CustomerEntitled(l, c, tenant, t) ==> CustomerEntitled(m, c, tenant, t)
    ensures forall u, t :: UserEntitled(l, u, t) ==> UserEntitled(m, u, t)
  {
  }

  lemma AssignToUserEntitled(l: Tables, res: Id, t: ResourceType, u: Id, actor: Actor)
    requires CheckAssignToUser(l, res, t, u, actor).Ok?
    ensures (t, res, actor.tenantId) in l.resources
    ensures CustomerEntitled(l, l.users[u].customerId.value, actor.tenantId, t) && UserEntitled(l, u, t)
  {
  }

  /** The rows of the next tables are old ones or the one a granted assignment added. */
  lemma RowsAfter(l: Tables, q: Request)
    requires Consistent(l) && Check(l, q).Ok?
    ensures forall r :: r in Step(l, q).customerRows ==>
              r in l.customerRows
              || (q.AssignToCustomer? && r == CustomerRow(q.customerId, q.kind, q.res, q.actor.tenantId))
    ensures forall r :: r in Step(l, q).userRows ==>
              r in l.userRows
              || (q.AssignToUser? && r == UserRow(q.userId, l.users[q.userId].customerId.value, q.kind, q.res, q.actor.tenantId))
  {
    match q
    case UnassignFromCustomer(res, t, c, actor) =>
      RemoveFirstMembers(l.customerRows, AtCustomerIn(c, t, res, actor.tenantId));
      FilterMembers(l.userRows, Not(Below(c, t, res)));
    case UnassignFromUser(res, t, u, actor) =>
      RemoveFirstMembers(l.userRows, AtUserIn(u, t, res, actor.tenantId));
    case _ =>
  }

  lemma CustomerRowsPermitted(l: Tables, q: Request)
    requires Consistent(l) && Permitted(l) && Check(l, q).Ok?
    ensures forall r :: r in Step(l, q).customerRows ==>
              (r.kind, r.resourceId, r.tenantId) in l.resources && CustomerEntitled(l, r.customerId, r.tenantId, r.kind)
  {
    RowsAfter(l, q);
  }

  lemma UserRowsPermitted(l: Tables, q: Request)
    requires Consistent(l) && Permitted(l) && Check(l, q).Ok?
    ensures forall r :: r in Step(l, q).userRows ==>
              && (r.kind, r.resourceId, r.tenantId) in l.resources
              && CustomerEntitled(l, r.customerId, r.tenantId, r.kind) && UserEntitled(l, r.userId, r.kind)
  {
    RowsAfter(l, q);
    if q.AssignToUser? {
      AssignToUserEntitled(l, q.res, q.kind, q.userId, q.actor);
    }
  }

  lemma StepPermitted(l: Tables, q: Request)
    requires Consistent(l) && Permitted(l)
    ensures Permitted(Step(l, q))
  {
    if Check(l, q).Ok? {
      StepKeeps(l, q);
      CustomerRowsPermitted(l, q);
      UserRowsPermitted(l, q);
      StaysPermitted(l, Step(l, q));
    }
  }

  lemma StaysPermitted(l: Tables, m: Tables)
    requires SameSettings(l, m)
    requires forall r :: r in m.customerRows ==>
               (r.kind, r.resourceId, r.tenantId) in l.resources && CustomerEntitled(l, r.customerId, r.tenantId, r.kind)
    requires forall r :: r in m.userRows ==>
               && (r.kind, r.resourceId, r.tenantId) in l.resources
               && CustomerEntitled(l, r.customerId, r.tenantId, r.kind) && UserEntitled(l, r.userId, r.kind)
    ensures Permitted(m)
  {
    EntitledStays(l, m);
  }

  /** Over every run, no resource is held across tenants or without the plan's, the
      customer's and the user's permission for its kind. */
  lemma {:induction false} RunPermitted(l: Tables, requests: seq<Request>)
    requires Consistent(l) && Permitted(l)
    ensures Permitted(Run(l, requests))
    decreases |requests|
  {
    if requests != [] {
      StepKeeps(l, requests[0]);
      StepPermitted(l, requests[0]);
      RunPermitted(Step(l, requests[0]), requests[1..]);
    }
  }

  // ---- What was unassigned can be assigned again -----------------------------------

  /** What the gates of a user assignment ask for, taken together. */
  lemma UserGranted(l: Tables, res: Id, t: ResourceType, u: Id, c: Id, actor: Actor)
    requires (t, res, actor.tenantId) in l.resources
    requires LoadUser(l, u, actor).Ok? && l.users[u].customerId == Some(c)
    requires CustomerEntitled(l, c, actor.tenantId, t) && UserEntitled(l, u, t)
    requires Count(l.customerRows, AtCustomer(c, t, res)) > 0 && UserQuotaGate(l, u, c, t).Ok?
    requires Count(l.userRows, AtUser(u, t, res)) == 0
    ensures CheckAssignToUser(l, res, t, u, actor).Ok?
  {
  }

  lemma UserQuotaFreed(l: Tables, res: Id, t: ResourceType, u: Id, c: Id, actor: Actor)
    requires Consistent(l) && WithinCeilings(l) && CheckUnassignFromUser(l, res, t, u, actor).Ok?
    requires l.users[u].customerId == Some(c)
    ensures UserQuotaGate(CommitUnassignFromUser(l, res, t, u, actor), u, c, t).Ok?
  {
    var m := CommitUnassignFromUser(l, res, t, u, actor);
    UserRowTaken(l, res, t, u, actor);
    UnassignFromUserCounted(l, res, t, u, actor);
    assert UserUsage(m, u, c, t) == Count(m.userRows, OfUser(u, c, t)) == Count(l.userRows, OfUser(u, c, t)) - 1;
  }

  /** In the states sequential runs reach, the gates grant again what an unassignment took away. */
  lemma UserReassignGranted(l: Tables, res: Id, t: ResourceType, u: Id, actor: Actor)
    requires Consistent(l) && Permitted(l) && WithinCeilings(l)
    requires CheckUnassignFromUser(l, res, t, u, actor).Ok?
    ensures CheckAssignToUser(CommitUnassignFromUser(l, res, t, u, actor), res, t, u, actor).Ok?
  {
    UserRowTaken(l, res, t, u, actor);
    var c := l.users[u].customerId.value;
    var r := UserRow(u, c, t, res, actor.tenantId);
    var m := CommitUnassignFromUser(l, res, t, u, actor);
    assert UserRowLinked(l, r) && CustomerEntitled(l, c, actor.tenantId, t) && UserEntitled(l, u, t);
    assert CustomerEntitled(m, c, actor.tenantId, t) && UserEntitled(m, u, t);
    assert Count(m.userRows, AtUser(u, t, res)) == 0 by {
      assert Count(l.userRows, AtUser(u, t, res)) <= 1;
    }
    UserQuotaFreed(l, res, t, u, c, actor);
    UserGranted(m, res, t, u, c, actor);
  }

  /** After the unassignment the customer's counter is below its ceiling. */
  lemma CustomerFreed(l: Tables, res: Id, t: ResourceType, c: Id, actor: Actor)
    requires Consistent(l) && WithinCeilings(l)
    requires CheckUnassignFromCustomer(l, res, t, c, actor).Ok?
    ensures var m := CommitUnassignFromCustomer(l, res, t, c, actor);
            c in m.customers && !LimitReached(Ceiling(m.customers[c].allotted, t), Read(m.customers[c].usage, t))
  {
    var m := CommitUnassignFromCustomer(l, res, t, c, actor);
    CustomerRowTaken(l, res, t, c, actor);
    UnassignFromCustomerKeeps(l, res, t, c, actor);
    assert Read(m.customers[c].usage, t) == Count(m.customerRows, InCustomer(c, t)) < Count(l.customerRows, InCustomer(c, t));
    assert Ceiling(m.customers[c].allotted, t) == Ceiling(l.customers[c].allotted, t);
  }

  lemma SettingsKept(l: Tables, m: Tables, tenant: Id, t: ResourceType)
    requires SameSettings(l, m) && SameOffsets(l, m) && tenant in l.subscriptions
    ensures tenant in m.subscriptions && Offset(m, tenant, t) == Offset(l, tenant, t)
    ensures SubscriptionLimit(m.subscriptions[tenant], t) == SubscriptionLimit(l.subscriptions[tenant], t)
  {
  }

  lemma SubscriptionKept(l: Tables, res: Id, t: ResourceType, c: Id, actor: Actor)
    requires Consistent(l) && CheckUnassignFromCustomer(l, res, t, c, actor).Ok? && actor.tenantId in l.subscriptions
    ensures var m := CommitUnassignFromCustomer(l, res, t, c, actor);
            && actor.tenantId in m.subscriptions && Offset(m, actor.tenantId, t) == Offset(l, actor.tenantId, t)
            && SubscriptionLimit(m.subscriptions[actor.tenantId], t) == SubscriptionLimit(l.subscriptions[actor.tenantId], t)
  {
    UnassignFromCustomerKeeps(l, res, t, c, actor);
    SettingsKept(l, CommitUnassignFromCustomer(l, res, t, c, actor), actor.tenantId, t);
  }

  /** And the tenant's counter is below the subscription's, if it counts nothing but rows. */
  lemma SubscriptionFreed(l: Tables, res: Id, t: ResourceType, c: Id, actor: Actor)
    requires Consistent(l) && WithinCeilings(l) && UsageIsRows(l)
    requires CheckUnassignFromCustomer(l, res, t, c, actor).Ok? && actor.tenantId in l.subscriptions
    ensures var m := CommitUnassignFromCustomer(l, res, t, c, actor);
            && actor.tenantId in m.subscriptions
            && !LimitReached(SubscriptionLimit(m.subscriptions[actor.tenantId], t), Read(m.subscriptions[actor.tenantId].usage, t))
  {
    var tenant := actor.tenantId;
    var m := CommitUnassignFromCustomer(l, res, t, c, actor);
    SubscriptionKept(l, res, t, c, actor);
    assert Count(m.customerRows, InTenant(tenant, t)) < Count(l.customerRows, InTenant(tenant, t)) by {
      CustomerRowTaken(l, res, t, c, actor);
    }
    assert Offset(l, tenant, t) == 0;
  }

  /** What the gates of a customer assignment ask for, taken together. */
  lemma CustomerGranted(l: Tables, res: Id, t: ResourceType, c: Id, actor: Actor)
    requires (t, res, actor.tenantId) in l.resources && CustomerEntitled(l, c, actor.tenantId, t)
    requires !LimitReached(Ceiling(l.customers[c].allotted, t), Read(l.customers[c].usage, t))
    requires !LimitReached(SubscriptionLimit(l.subscriptions[actor.tenantId], t), Read(l.subscriptions[actor.tenantId].usage, t))
    requires Count(l.customerRows, AtCustomer(c, t, res)) == 0
    ensures CheckAssignToCustomer(l, res, t, c, actor).Ok?
  {
  }

  lemma RowFreed(l: Tables, res: Id, t: ResourceType, c: Id, actor: Actor)
    requires Unrepeated(l) && CheckUnassignFromCustomer(l, res, t, c, actor).Ok?
    ensures Count(CommitUnassignFromCustomer(l, res, t, c, actor).customerRows, AtCustomer(c, t, res)) == 0
  {
    CustomerRowTaken(l, res, t, c, actor);
    assert Count(l.customerRows, AtCustomer(c, t, res)) <= 1;
  }

  /** The same for a customer, when the usage counters count nothing else. */
  lemma CustomerReassignGranted(l: Tables, res: Id, t: ResourceType, c: Id, actor: Actor)
    requires Consistent(l) && Permitted(l) && WithinCeilings(l) && UsageIsRows(l)
    requires CheckUnassignFromCustomer(l, res, t, c, actor).Ok?
    ensures CheckAssignToCustomer(CommitUnassignFromCustomer(l, res, t, c, actor), res, t, c, actor).Ok?
  {
    var m := CommitUnassignFromCustomer(l, res, t, c, actor);
    FirstFound(l.customerRows, AtCustomerIn(c, t, res, actor.tenantId));
    assert CustomerRow(c, t, res, actor.tenantId) in l.customerRows;
    assert CustomerEntitled(m, c, actor.tenantId, t) by {
      UnassignFromCustomerKeeps(l, res, t, c, actor);
      EntitledStays(l, m);
    }
    CustomerFreed(l, res, t, c, actor);
    SubscriptionFreed(l, res, t, c, actor);
    RowFreed(l, res, t, c, actor);
    CustomerGranted(m, res, t, c, actor);
  }
}
