/** Exactly which requests the four operations grant, and what a granted one does, in terms of the columns alone. */
module LedgerDecisions {
  import opened Options
  import opened Counting
  import opened Ledger
  import opened LedgerInvariants
  import opened LedgerAccess

  // ---- What the columns say --------------------------------------------------------

  /** The usage column, 0 where it has no number, is below the limit column, or that has none. */
  ghost predicate Under(usage: Counters, limits: Counters, t: ResourceType) {
    t in limits ==> (if t in usage then usage[t] < limits[t] else 0 < limits[t])
  }

  /** The same where -1 stands for no limit. */
  ghost predicate UnderPlan(usage: Counters, limits: Counters, t: ResourceType) {
    t in limits && limits[t] != -1 ==> Under(usage, limits, t)
  }

  ghost predicate CustomerOf(l: Tables, c: Id, tenant: Id) {
    c in l.customers && l.customers[c].tenantId == tenant
  }

  /** The user is in the actor's tenant, and in the actor's customer if it has one. */
  ghost predicate UserOf(l: Tables, u: Id, actor: Actor) {
    && u in l.users && l.users[u].tenantId == Some(actor.tenantId)
    && (actor.customerId == None || l.users[u].customerId == actor.customerId)
  }

  ghost predicate CustomerHolds(l: Tables, c: Id, t: ResourceType, res: Id) {
    exists r :: r in l.customerRows && r.customerId == c && r.kind == t && r.resourceId == res
  }

  ghost predicate UserHolds(l: Tables, u: Id, t: ResourceType, res: Id) {
    exists r :: r in l.userRows && r.userId == u && r.kind == t && r.resourceId == res
  }

  lemma HoldsCounted(l: Tables, x: Id, t: ResourceType, res: Id)
    ensures Count(l.customerRows, AtCustomer(x, t, res)) > 0 <==> CustomerHolds(l, x, t, res)
    ensures Count(l.userRows, AtUser(x, t, res)) > 0 <==> UserHolds(l, x, t, res)
  {
    CountPositive(l.customerRows, AtCustomer(x, t, res));
    CountPositive(l.userRows, AtUser(x, t, res));
  }

  // ---- Grants and refusals ---------------------------------------------------------

  /** Everything a customer assignment asks for except that it is new. */
  ghost predicate MayGiveCustomer(l: Tables, res: Id, t: ResourceType, c: Id, actor: Actor) {
    && (t, res, actor.tenantId) in l.resources
    && CustomerEntitled(l, c, actor.tenantId, t)
    && UnderPlan(l.subscriptions[actor.tenantId].usage, l.subscriptions[actor.tenantId].limits, t)
    && Under(l.customers[c].usage, l.customers[c].allotted, t)
  }

  lemma AssignToCustomerDecided(l: Tables, res: Id, t: ResourceType, c: Id, actor: Actor)
    ensures var r := Check(l, AssignToCustomer(res, t, c, actor));
            && (r.Ok? <==> MayGiveCustomer(l, res, t, c, actor) && !CustomerHolds(l, c, t, res))
            && (r == Err(BadRequest) <==> MayGiveCustomer(l, res, t, c, actor) && CustomerHolds(l, c, t, res))
            && (r == Err(NotFound) <==> (t, res, actor.tenantId) !in l.resources || !CustomerOf(l, c, actor.tenantId))
            && (r.Err? ==> r.error in {BadRequest, NotFound, Forbidden})
  {
    HoldsCounted(l, c, t, res);
  }

  /** Everything a user assignment asks for except that it is new; its last part is the user's own limit, if
      there is a record. */
  ghost predicate MayGiveUser(l: Tables, res: Id, t: ResourceType, u: Id, actor: Actor) {
    && (t, res, actor.tenantId) in l.resources
    && UserOf(l, u, actor) && l.users[u].customerId.Some?
    && CustomerEntitled(l, l.users[u].customerId.value, actor.tenantId, t) && UserEntitled(l, u, t)
    && CustomerHolds(l, l.users[u].customerId.value, t, res)
    && var record := (u, l.users[u].customerId.value);
       record in l.limits ==> Under(l.limits[record].usage, l.limits[record].limits, t)
  }

  /** Once the user is found, only the last check is left when all gates open, and BadRequest is not their answer. */
  lemma UserGates(l: Tables, res: Id, t: ResourceType, u: Id, c: Id, actor: Actor)
    requires (t, res, actor.tenantId) in l.resources && UserOf(l, u, actor) && l.users[u].customerId == Some(c)
    ensures MayGiveUser(l, res, t, u, actor) ==>
              CheckAssignToUser(l, res, t, u, actor) == if Count(l.userRows, AtUser(u, t, res)) == 0 then Ok(()) else Err(BadRequest)
    ensures !MayGiveUser(l, res, t, u, actor) ==>
              CheckAssignToUser(l, res, t, u, actor) in {Err(NotFound), Err(Forbidden)}
  {
    HoldsCounted(l, c, t, res);
  }

  lemma AssignToUserGranted(l: Tables, res: Id, t: ResourceType, u: Id, actor: Actor)
    ensures Check(l, AssignToUser(res, t, u, actor)).Ok? <==> MayGiveUser(l, res, t, u, actor) && !UserHolds(l, u, t, res)
  {
    HoldsCounted(l, u, t, res);
    if (t, res, actor.tenantId) in l.resources && UserOf(l, u, actor) && l.users[u].customerId.Some? {
      UserGates(l, res, t, u, l.users[u].customerId.value, actor);
    }
  }

  lemma AssignToUserRepeated(l: Tables, res: Id, t: ResourceType, u: Id, actor: Actor)
    ensures Check(l, AssignToUser(res, t, u, actor)) == Err(BadRequest) <==>
              || (MayGiveUser(l, res, t, u, actor) && UserHolds(l, u, t, res))
              || ((t, res, actor.tenantId) in l.resources && UserOf(l, u, actor) && l.users[u].customerId == None)
  {
    HoldsCounted(l, u, t, res);
    if (t, res, actor.tenantId) in l.resources && UserOf(l, u, actor) && l.users[u].customerId.Some? {
      UserGates(l, res, t, u, l.users[u].customerId.value, actor);
    }
  }

  lemma AssignToUserNotFound(l: Tables, res: Id, t: ResourceType, u: Id, actor: Actor)
    ensures var r := Check(l, AssignToUser(res, t, u, actor));
            && (r == Err(NotFound) <==>
                  || (t, res, actor.tenantId) !in l.resources || !UserOf(l, u, actor)
                  || (l.users[u].customerId.Some? && !CustomerOf(l, l.users[u].customerId.value, actor.tenantId)))
            && (r.Err? ==> r.error in {BadRequest, NotFound, Forbidden})
  {
  }

  lemma UnassignFromCustomerDecided(l: Tables, res: Id, t: ResourceType, c: Id, actor: Actor)
    ensures var r := Check(l, UnassignFromCustomer(res, t, c, actor));
            && (r.Ok? <==> CustomerOf(l, c, actor.tenantId) && l.customers[c].active
                           && CustomerRow(c, t, res, actor.tenantId) in l.customerRows)
            && (r == Err(Forbidden) <==> CustomerOf(l, c, actor.tenantId) && !l.customers[c].active)
            && (r.Err? ==> r.error in {NotFound, Forbidden})
  {
    FirstFound(l.customerRows, AtCustomerIn(c, t, res, actor.tenantId));
    CountPositive(l.customerRows, AtCustomerIn(c, t, res, actor.tenantId));
  }

  lemma UnassignFromUserDecided(l: Tables, res: Id, t: ResourceType, u: Id, actor: Actor)
    ensures var r := Check(l, UnassignFromUser(res, t, u, actor));
            && (r.Ok? <==> UserOf(l, u, actor)
                           && exists x :: x in l.userRows && x.userId == u && x.kind == t && x.resourceId == res && x.tenantId == actor.tenantId)
            && (r.Err? ==> r.error == NotFound)
  {
    FirstFound(l.userRows, AtUserIn(u, t, res, actor.tenantId));
    CountPositive(l.userRows, AtUserIn(u, t, res, actor.tenantId));
  }

  // ---- What a granted request does -------------------------------------------------

  /** A column whose number for t, 0 if it had none, moved by n; nothing else in it changed. */
  ghost predicate Moved(before: Counters, after: Counters, t: ResourceType, n: int) {
    && t in after && after[t] == (if t in before then before[t] else 0) + n
    && forall k :: k != t ==> (k in after <==> k in before) && (k in before ==> after[k] == before[k])
  }

  /** Only this customer's usage of t moved. */
  ghost predicate CustomerMoved(l: Tables, m: Tables, c: Id, t: ResourceType, n: int) {
    && c in l.customers && c in m.customers
    && Moved(l.customers[c].usage, m.customers[c].usage, t, n)
    && m.customers == l.customers[c := l.customers[c].(usage := m.customers[c].usage)]
  }

  ghost predicate SubscriptionMoved(l: Tables, m: Tables, tenant: Id, t: ResourceType, n: int) {
    && tenant in l.subscriptions && tenant in m.subscriptions
    && Moved(l.subscriptions[tenant].usage, m.subscriptions[tenant].usage, t, n)
    && m.subscriptions == l.subscriptions[tenant := l.subscriptions[tenant].(usage := m.subscriptions[tenant].usage)]
  }

  /** A missing record counts as one without limits and usage, and appears. */
  ghost predicate UserMoved(l: Tables, m: Tables, u: Id, c: Id, t: ResourceType, n: int) {
    var record := if (u, c) in l.limits then l.limits[(u, c)] else UserLimit(map[], map[]);
    && (u, c) in m.limits
    && Moved(record.usage, m.limits[(u, c)].usage, t, n)
    && m.limits == l.limits[(u, c) := record.(usage := m.limits[(u, c)].usage)]
  }

  /** Rows gone from a table: those left keep their order and multiplicity. */
  ghost predicate Without<T(!new)>(before: seq<T>, after: seq<T>, p: T -> bool, n: nat) {
    && |after| == |before| - n
    && (forall x :: x in after ==> x in before)
    && (forall x :: x in before && !p(x) ==> x in after)
    && (forall x :: x in after ==> !p(x))
  }

  lemma AssignToCustomerDone(l: Tables, res: Id, t: ResourceType, c: Id, actor: Actor)
    requires Check(l, AssignToCustomer(res, t, c, actor)).Ok?
    ensures var m := Step(l, AssignToCustomer(res, t, c, actor));
            && m.customerRows == l.customerRows + [CustomerRow(c, t, res, actor.tenantId)]
            && CustomerMoved(l, m, c, t, 1) && SubscriptionMoved(l, m, actor.tenantId, t, 1)
            && m.userRows == l.userRows && m.limits == l.limits && m.users == l.users && m.resources == l.resources
  {
  }

  lemma AssignToUserDone(l: Tables, res: Id, t: ResourceType, u: Id, actor: Actor)
    requires Check(l, AssignToUser(res, t, u, actor)).Ok?
    ensures var m := Step(l, AssignToUser(res, t, u, actor));
            && l.users[u].customerId.Some?
            && m.userRows == l.userRows + [UserRow(u, l.users[u].customerId.value, t, res, actor.tenantId)]
            && UserMoved(l, m, u, l.users[u].customerId.value, t, 1)
            && m.customerRows == l.customerRows && m.customers == l.customers && m.subscriptions == l.subscriptions
            && m.users == l.users && m.resources == l.resources
  {
  }

  lemma {:induction false} RemoveFirstLength<T>(rows: seq<T>, p: T -> bool)
    requires First(rows, p).Some?
    ensures |RemoveFirst(rows, p)| == |rows| - 1
  {
    if !p(rows[0]) {
      RemoveFirstLength(rows[1..], p);
    }
  }

  lemma OneGone<T(!new)>(rows: seq<T>, p: T -> bool, wide: T -> bool)
    requires First(rows, p).Some? && Count(rows, wide) <= 1
    requires forall x :: x in rows && p(x) ==> wide(x)
    ensures Without(rows, RemoveFirst(rows, p), p, 1)
  {
    RemoveFirstMembers(rows, p);
    RemoveFirstLength(rows, p);
    FirstFound(rows, p);
    CountRemoveFirst(rows, p, p);
    CountImplies(rows, p, wide);
    CountPositive(RemoveFirst(rows, p), p);
  }

  /** One row and one unit on the user's counter. */
  lemma UnassignFromUserDone(l: Tables, res: Id, t: ResourceType, u: Id, actor: Actor)
    requires Consistent(l) && Check(l, UnassignFromUser(res, t, u, actor)).Ok?
    ensures var m := Step(l, UnassignFromUser(res, t, u, actor));
            && l.users[u].customerId.Some?
            && Without(l.userRows, m.userRows, (x: UserRow) => x.userId == u && x.kind == t && x.resourceId == res, 1)
            && UserMoved(l, m, u, l.users[u].customerId.value, t, -1)
            && m.customerRows == l.customerRows && m.customers == l.customers && m.subscriptions == l.subscriptions
            && m.users == l.users && m.resources == l.resources
  {
    var one := AtUserIn(u, t, res, actor.tenantId);
    UserRowTaken(l, res, t, u, actor);
    UnassignFromUserCounted(l, res, t, u, actor);
    OneGone(l.userRows, one, AtUser(u, t, res));
    forall x | x in l.userRows && x.userId == u && x.kind == t && x.resourceId == res ensures one(x) {
      assert UserRowLinked(l, x);
    }
  }

  /** The customer row, every user row below it, one unit on each holder's counter and one on the customer's and
      the subscription's. */
  lemma UnassignFromCustomerDone(l: Tables, res: Id, t: ResourceType, c: Id, actor: Actor)
    requires Consistent(l) && Check(l, UnassignFromCustomer(res, t, c, actor)).Ok?
    ensures var m := Step(l, UnassignFromCustomer(res, t, c, actor));
            && Without(l.customerRows, m.customerRows, (x: CustomerRow) => x == CustomerRow(c, t, res, actor.tenantId), 1)
            && (forall x :: x in m.userRows <==> x in l.userRows && !(x.customerId == c && x.kind == t && x.resourceId == res))
            && CustomerMoved(l, m, c, t, -1)
            && (actor.tenantId in l.subscriptions ==> SubscriptionMoved(l, m, actor.tenantId, t, -1))
            && (actor.tenantId !in l.subscriptions ==> m.subscriptions == l.subscriptions)
            && m.limits.Keys == l.limits.Keys && m.users == l.users && m.resources == l.resources
  {
    CountersDown(l, res, t, c, actor);
    HolderRowsGone(l, res, t, c, actor);
    CustomerRowGone(l, res, t, c, actor);
  }

  lemma Lowered(usage: Counters, t: ResourceType)
    requires Read(usage, t) > 0
    ensures Moved(usage, Decrement(usage, t), t, -1)
  {
  }

  lemma ColumnsAfter(l: Tables, res: Id, t: ResourceType, c: Id, actor: Actor)
    requires Check(l, UnassignFromCustomer(res, t, c, actor)).Ok?
    ensures var m := Step(l, UnassignFromCustomer(res, t, c, actor));
            && m.customers == DecrementCustomer(l.customers, c, t)
            && m.subscriptions == DecrementSubscription(l.subscriptions, actor.tenantId, t)
            && m.users == l.users && m.resources == l.resources
  {
  }

  lemma CountersDown(l: Tables, res: Id, t: ResourceType, c: Id, actor: Actor)
    requires Consistent(l) && Check(l, UnassignFromCustomer(res, t, c, actor)).Ok?
    ensures var m := Step(l, UnassignFromCustomer(res, t, c, actor));
            && CustomerMoved(l, m, c, t, -1)
            && (actor.tenantId in l.subscriptions ==> SubscriptionMoved(l, m, actor.tenantId, t, -1))
            && (actor.tenantId !in l.subscriptions ==> m.subscriptions == l.subscriptions)
            && m.users == l.users && m.resources == l.resources
  {
    ClampNeverFires(l, UnassignFromCustomer(res, t, c, actor));
    ColumnsAfter(l, res, t, c, actor);
    Lowered(l.customers[c].usage, t);
    if actor.tenantId in l.subscriptions {
      Lowered(l.subscriptions[actor.tenantId].usage, t);
    }
  }

  lemma CustomerRowGone(l: Tables, res: Id, t: ResourceType, c: Id, actor: Actor)
    requires Unrepeated(l) && Check(l, UnassignFromCustomer(res, t, c, actor)).Ok?
    ensures var m := Step(l, UnassignFromCustomer(res, t, c, actor));
            Without(l.customerRows, m.customerRows, (x: CustomerRow) => x == CustomerRow(c, t, res, actor.tenantId), 1)
  {
    OneGone(l.customerRows, AtCustomerIn(c, t, res, actor.tenantId), AtCustomer(c, t, res));
  }

  lemma HolderRowsGone(l: Tables, res: Id, t: ResourceType, c: Id, actor: Actor)
    requires Check(l, UnassignFromCustomer(res, t, c, actor)).Ok?
    ensures var m := Step(l, UnassignFromCustomer(res, t, c, actor));
            && (forall x :: x in m.userRows <==> x in l.userRows && !(x.customerId == c && x.kind == t && x.resourceId == res))
            && m.limits.Keys == l.limits.Keys
  {
    FilterMembers(l.userRows, Not(Below(c, t, res)));
    CountPositive(l.userRows, Below(c, t, res));
  }

  /** Of the user counters, those of the customer's users who held the resource lose one, the others nothing. */
  lemma CascadeCountersDone(l: Tables, res: Id, t: ResourceType, c: Id, actor: Actor, u: Id, other: Id)
    requires Consistent(l) && Check(l, UnassignFromCustomer(res, t, c, actor)).Ok? && (u, other) in l.limits
    ensures var m := Step(l, UnassignFromCustomer(res, t, c, actor));
            && (u, other) in m.limits && m.limits[(u, other)].limits == l.limits[(u, other)].limits
            && if other == c && exists x :: x in l.userRows && x.userId == u && x.customerId == c && x.kind == t && x.resourceId == res
               then Moved(l.limits[(u, other)].usage, m.limits[(u, other)].usage, t, -1)
               else m.limits[(u, other)] == l.limits[(u, other)]
  {
    ClampNeverFires(l, UnassignFromCustomer(res, t, c, actor));
    CommitMatches(l, res, t, c, actor);
    if other == c && u in Holders(l.userRows, c, t, res) {
      assert UserUsage(l, u, c, t) > 0;
    }
  }

  lemma CommitMatches(l: Tables, res: Id, t: ResourceType, c: Id, actor: Actor)
    requires Check(l, UnassignFromCustomer(res, t, c, actor)).Ok?
    ensures Step(l, UnassignFromCustomer(res, t, c, actor)).limits == DecrementUsers(l.limits, Holders(l.userRows, c, t, res), c, t)
  {
    CountPositive(l.userRows, Below(c, t, res));
    if Count(l.userRows, Below(c, t, res)) == 0 {
      assert Holders(l.userRows, c, t, res) == {};
    }
  }

  /** A refused request changes nothing. */
  lemma RefusedKeeps(l: Tables, q: Request)
    requires Check(l, q).Err?
    ensures Step(l, q) == l
  {
  }
}
