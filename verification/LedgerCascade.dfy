/** The bulk cascade against the loop it replaces, and what an unassignment undoes. */
module LedgerCascade {
  import opened Options
  import opened Counting
  import opened Ledger
  import opened LedgerInvariants

  // ---- The cascade is the loop -----------------------------------------------------

  function UnassignEach(res: Id, t: ResourceType, users: seq<Id>, actor: Actor): seq<Request> {
    if users == [] then [] else [UnassignFromUser(res, t, users[0], actor)] + UnassignEach(res, t, users[1..], actor)
  }

  predicate AllGranted(l: Tables, requests: seq<Request>)
    decreases |requests|
  {
    requests != [] ==> Check(l, requests[0]).Ok? && AllGranted(Step(l, requests[0]), requests[1..])
  }

  ghost predicate Enumerates(order: seq<Id>, holders: set<Id>) {
    && (forall i, j :: 0 <= i < j < |order| ==> order[i] != order[j])
    && (forall u :: u in order <==> u in holders)
  }

  /** A customer row's tenant and its holders' tenant are the actor's. */
  ghost predicate MayUnassignBelow(l: Tables, c: Id, actor: Actor) {
    && c in l.customers && l.customers[c].tenantId == actor.tenantId
    && (actor.customerId.Some? ==> actor.customerId.value == c)
  }

  lemma NoHolders(l: Tables, res: Id, t: ResourceType, c: Id)
    requires Holders(l.userRows, c, t, res) == {}
    ensures CascadeUsers(l, res, t, c) == l
  {
    forall r | r in l.userRows ensures Not(Below(c, t, res))(r) {
      assert Below(c, t, res)(r) ==> r.userId in Holders(l.userRows, c, t, res);
    }
    FilterAll(l.userRows, Not(Below(c, t, res)));
  }

  /** Whether or not the affected count is tested first, the cascade does the same. */
  lemma CommitIsCascade(l: Tables, res: Id, t: ResourceType, c: Id, actor: Actor)
    ensures CommitUnassignFromCustomer(l, res, t, c, actor)
         == RemoveCustomerRow(CascadeUsers(l, res, t, c), res, t, c, actor)
  {
    CountPositive(l.userRows, Below(c, t, res));
    if Count(l.userRows, Below(c, t, res)) == 0 {
      assert Holders(l.userRows, c, t, res) == {};
      NoHolders(l, res, t, c);
    }
  }

  /** A holder's row is found whatever customer admin or tenant admin asks, and it is below the customer row. */
  lemma HolderFound(l: Tables, res: Id, t: ResourceType, c: Id, u: Id, actor: Actor)
    requires Consistent(l) && MayUnassignBelow(l, c, actor)
    requires u in Holders(l.userRows, c, t, res)
    ensures CheckUnassignFromUser(l, res, t, u, actor).Ok? && l.users[u].customerId == Some(c)
    ensures forall x :: x in l.userRows && AtUserIn(u, t, res, actor.tenantId)(x) ==> Below(c, t, res)(x)
  {
    var r :| r in l.userRows && Below(c, t, res)(r) && r.userId == u;
    assert UserRowLinked(l, r);
    var one := AtUserIn(u, t, res, actor.tenantId);
    assert one(r);
    CountPositive(l.userRows, one);
    FirstFound(l.userRows, one);
    forall x | x in l.userRows && one(x) ensures Below(c, t, res)(x) {
      assert UserRowLinked(l, x);
    }
  }

  /** Unassigning one holder by itself leaves the cascade's outcome as it was. */
  lemma PeelHolder(l: Tables, res: Id, t: ResourceType, c: Id, u: Id, actor: Actor)
    requires Consistent(l) && MayUnassignBelow(l, c, actor)
    requires u in Holders(l.userRows, c, t, res)
    ensures CheckUnassignFromUser(l, res, t, u, actor).Ok?
    ensures var m := CommitUnassignFromUser(l, res, t, u, actor);
            && Holders(m.userRows, c, t, res) == Holders(l.userRows, c, t, res) - {u}
            && CascadeUsers(m, res, t, c) == CascadeUsers(l, res, t, c)
  {
    HolderFound(l, res, t, c, u, actor);
    HolderGone(l, res, t, c, u, actor);
    FilterRemoveFirst(l.userRows, AtUserIn(u, t, res, actor.tenantId), Below(c, t, res));
    DecrementSplit(l.limits, Holders(l.userRows, c, t, res), u, c, t);
  }

  lemma DecrementSplit(limits: map<(Id, Id), UserLimit>, holders: set<Id>, u: Id, c: Id, t: ResourceType)
    requires u in holders
    ensures DecrementUsers(DecrementUser(limits, u, Some(c), t), holders - {u}, c, t)
         == DecrementUsers(limits, holders, c, t)
  {
  }

  lemma HolderGone(l: Tables, res: Id, t: ResourceType, c: Id, u: Id, actor: Actor)
    requires Consistent(l) && CheckUnassignFromUser(l, res, t, u, actor).Ok?
    ensures Holders(CommitUnassignFromUser(l, res, t, u, actor).userRows, c, t, res)
         == Holders(l.userRows, c, t, res) - {u}
  {
    var one := AtUserIn(u, t, res, actor.tenantId);
    var rows := RemoveFirst(l.userRows, one);
    RemoveFirstMembers(l.userRows, one);
    FirstFound(l.userRows, one);
    CountRemoveFirst(l.userRows, one, AtUser(u, t, res));
    CountPositive(rows, AtUser(u, t, res));
    forall x | x in rows && Below(c, t, res)(x) ensures x.userId != u {
      assert x.userId == u ==> AtUser(u, t, res)(x);
    }
  }

  lemma OneMoreRequest(l: Tables, q: Request, rest: seq<Request>)
    ensures Run(l, [q] + rest) == Run(Step(l, q), rest)
    ensures AllGranted(l, [q] + rest) <==> Check(l, q).Ok? && AllGranted(Step(l, q), rest)
  {
    assert ([q] + rest)[1..] == rest;
  }

  lemma RestEnumerates(order: seq<Id>, holders: set<Id>)
    requires order != [] && Enumerates(order, holders)
    ensures order[0] in holders && Enumerates(order[1..], holders - {order[0]})
  {
    assert order[0] in order;
    forall u ensures u in order[1..] <==> u in holders - {order[0]} {
      assert order == [order[0]] + order[1..];
    }
  }

  /** After the first holder's turn the others are left to unassign, and the cascade's outcome is the same. */
  lemma FirstTurn(l: Tables, res: Id, t: ResourceType, c: Id, order: seq<Id>, actor: Actor)
    requires Consistent(l) && MayUnassignBelow(l, c, actor)
    requires order != [] && Enumerates(order, Holders(l.userRows, c, t, res))
    ensures var q := UnassignFromUser(res, t, order[0], actor);
            && Check(l, q).Ok? && Consistent(Step(l, q)) && MayUnassignBelow(Step(l, q), c, actor)
            && Enumerates(order[1..], Holders(Step(l, q).userRows, c, t, res))
            && CascadeUsers(Step(l, q), res, t, c) == CascadeUsers(l, res, t, c)
  {
    RestEnumerates(order, Holders(l.userRows, c, t, res));
    PeelHolder(l, res, t, c, order[0], actor);
    UnassignFromUserKeeps(l, res, t, order[0], actor);
    assert Step(l, UnassignFromUser(res, t, order[0], actor)) == CommitUnassignFromUser(l, res, t, order[0], actor);
  }

  /** Unassigning the holders one by one, in any order, reaches the tables of the bulk update and delete. */
  lemma {:induction false} LoopIsCascade(l: Tables, res: Id, t: ResourceType, c: Id, order: seq<Id>, actor: Actor)
    requires Consistent(l) && MayUnassignBelow(l, c, actor)
    requires Enumerates(order, Holders(l.userRows, c, t, res))
    ensures AllGranted(l, UnassignEach(res, t, order, actor))
    ensures Run(l, UnassignEach(res, t, order, actor)) == CascadeUsers(l, res, t, c)
    decreases |order|
  {
    if order == [] {
      assert forall u :: u in Holders(l.userRows, c, t, res) ==> u in order;
      assert Holders(l.userRows, c, t, res) == {};
      NoHolders(l, res, t, c);
    } else {
      var q := UnassignFromUser(res, t, order[0], actor);
      FirstTurn(l, res, t, c, order, actor);
      LoopIsCascade(Step(l, q), res, t, c, order[1..], actor);
      OneMoreRequest(l, q, UnassignEach(res, t, order[1..], actor));
    }
  }

  /** The bulk unassignment equals the loop over every holder, in any order, followed by
      removing the customer row with its two decrements. */
  lemma BulkIsLoop(l: Tables, res: Id, t: ResourceType, c: Id, order: seq<Id>, admin: Actor, actor: Actor)
    requires Consistent(l) && CheckUnassignFromCustomer(l, res, t, c, admin).Ok?
    requires MayUnassignBelow(l, c, actor)
    requires Enumerates(order, Holders(l.userRows, c, t, res))
    ensures AllGranted(l, UnassignEach(res, t, order, actor))
    ensures Step(l, UnassignFromCustomer(res, t, c, admin))
         == RemoveCustomerRow(Run(l, UnassignEach(res, t, order, actor)), res, t, c, admin)
  {
    LoopIsCascade(l, res, t, c, order, actor);
    CommitIsCascade(l, res, t, c, admin);
  }

  // ---- Undoing ---------------------------------------------------------------------

  /** The same rows in the same order, and the same reading of every counter. */
  ghost predicate SameReadings(l: Tables, m: Tables) {
    && m.customerRows == l.customerRows && m.userRows == l.userRows
    && SameSettings(l, m)
    && (forall c, t :: c in l.customers ==> Read(m.customers[c].usage, t) == Read(l.customers[c].usage, t))
    && (forall s, t :: s in l.subscriptions ==> Read(m.subscriptions[s].usage, t) == Read(l.subscriptions[s].usage, t))
    && (forall u, c, t :: UserUsage(m, u, c, t) == UserUsage(l, u, c, t))
  }

  /** Another record with the same limits and readings in the place of the old one, or of none. */
  lemma RecordReplaced(l: Tables, u: Id, c: Id, x: UserLimit)
    requires x.limits == if (u, c) in l.limits then l.limits[(u, c)].limits else map[]
    requires forall t :: Read(x.usage, t) == UserUsage(l, u, c, t)
    ensures SameReadings(l, l.(limits := l.limits[(u, c) := x]))
  {
    var m := l.(limits := l.limits[(u, c) := x]);
    forall u', c', t' ensures UserUsage(m, u', c', t') == UserUsage(l, u', c', t') {
    }
  }

  function CountedUpAndDown(l: Tables, u: Id, c: Id, t: ResourceType): UserLimit {
    if (u, c) in l.limits
    then l.limits[(u, c)].(usage := Decrement(Increment(l.limits[(u, c)].usage, t), t))
    else UserLimit(map[], Decrement(map[t := 1], t))
  }

  lemma UserCounterRestored(l: Tables, u: Id, c: Id, t: ResourceType)
    requires UserUsage(l, u, c, t) >= 0
    ensures SameReadings(l, l.(limits := DecrementUser(IncrementUser(l.limits, u, c, t), u, Some(c), t)))
  {
    RecordReplaced(l, u, c, CountedUpAndDown(l, u, c, t));
    assert DecrementUser(IncrementUser(l.limits, u, c, t), u, Some(c), t) == l.limits[(u, c) := CountedUpAndDown(l, u, c, t)];
  }

  lemma CustomerCountersRestored(l: Tables, c: Id, tenant: Id, t: ResourceType)
    requires c in l.customers ==> Read(l.customers[c].usage, t) >= 0
    requires tenant in l.subscriptions ==> Read(l.subscriptions[tenant].usage, t) >= 0
    ensures SameReadings(l, l.(customers := DecrementCustomer(IncrementCustomer(l.customers, c, t), c, t),
                               subscriptions := DecrementSubscription(IncrementSubscription(l.subscriptions, tenant, t), tenant, t)))
  {
    var m := l.(customers := DecrementCustomer(IncrementCustomer(l.customers, c, t), c, t),
                subscriptions := DecrementSubscription(IncrementSubscription(l.subscriptions, tenant, t), tenant, t));
    forall u', c', t' ensures UserUsage(m, u', c', t') == UserUsage(l, u', c', t') {
    }
    assert SameSettings(l, m);
  }

  /** Unassigning from a user what was just assigned is granted and puts everything back. */
  lemma UserAssignmentUndone(l: Tables, res: Id, t: ResourceType, u: Id, actor: Actor)
    requires Consistent(l) && CheckAssignToUser(l, res, t, u, actor).Ok?
    ensures var m := CommitAssignToUser(l, res, t, u, l.users[u].customerId.value, actor);
            && CheckUnassignFromUser(m, res, t, u, actor).Ok?
            && SameReadings(l, CommitUnassignFromUser(m, res, t, u, actor))
  {
    var c := l.users[u].customerId.value;
    var one := AtUserIn(u, t, res, actor.tenantId);
    assert Count(l.userRows, one) == 0 by {
      CountImplies(l.userRows, one, AtUser(u, t, res));
    }
    RemoveAppended(l.userRows, UserRow(u, c, t, res, actor.tenantId), one);
    assert UserUsage(l, u, c, t) == Count(l.userRows, OfUser(u, c, t));
    UserCounterRestored(l, u, c, t);
    assert CommitUnassignFromUser(CommitAssignToUser(l, res, t, u, c, actor), res, t, u, actor)
        == l.(limits := DecrementUser(IncrementUser(l.limits, u, c, t), u, Some(c), t));
  }

  /** Unassigning from a customer what was just assigned is granted and puts everything back. */
  lemma CustomerAssignmentUndone(l: Tables, res: Id, t: ResourceType, c: Id, actor: Actor)
    requires Consistent(l) && CheckAssignToCustomer(l, res, t, c, actor).Ok?
    ensures var m := CommitAssignToCustomer(l, res, t, c, actor);
            && CheckUnassignFromCustomer(m, res, t, c, actor).Ok?
            && SameReadings(l, CommitUnassignFromCustomer(m, res, t, c, actor))
  {
    var one := AtCustomerIn(c, t, res, actor.tenantId);
    assert Count(l.customerRows, one) == 0 by {
      CountImplies(l.customerRows, one, AtCustomer(c, t, res));
    }
    RemoveAppended(l.customerRows, CustomerRow(c, t, res, actor.tenantId), one);
    forall r | r in l.userRows ensures !Below(c, t, res)(r) {
      assert UserRowLinked(l, r);
    }
    CountPositive(l.userRows, Below(c, t, res));
    assert Read(l.subscriptions[actor.tenantId].usage, t) >= Count(l.customerRows, InTenant(actor.tenantId, t));
    assert Read(l.customers[c].usage, t) == Count(l.customerRows, InCustomer(c, t));
    CustomerCountersRestored(l, c, actor.tenantId, t);
    assert CommitUnassignFromCustomer(CommitAssignToCustomer(l, res, t, c, actor), res, t, c, actor)
        == l.(customers := DecrementCustomer(IncrementCustomer(l.customers, c, t), c, t),
              subscriptions := DecrementSubscription(IncrementSubscription(l.subscriptions, actor.tenantId, t), actor.tenantId, t));
  }
}
