/** What every run of the four assignment operations keeps: the cached counters agree with
    the rows, the rows hang together, and no ceiling is exceeded. */
module LedgerInvariants {
  import opened Options
  import opened Counting
  import opened Ledger

  // ---- The consistent states -------------------------------------------------------

  /** The user counter, 0 where there is no record. */
  function UserUsage(l: Tables, u: Id, c: Id, t: ResourceType): int {
    if (u, c) in l.limits then Read(l.limits[(u, c)].usage, t) else 0
  }

  /** Every cached counter equals the number of rows it caches; a subscription also counts
      devices created elsewhere, so it is at least the number of rows. */
  ghost predicate Counted(l: Tables) {
    && (forall c, t :: c in l.customers ==>
          Read(l.customers[c].usage, t) == Count(l.customerRows, InCustomer(c, t)))
    && (forall u, c, t :: UserUsage(l, u, c, t) == Count(l.userRows, OfUser(u, c, t)))
    && (forall tenant, t :: tenant in l.subscriptions ==>
          Read(l.subscriptions[tenant].usage, t) >= Count(l.customerRows, InTenant(tenant, t)))
  }

  /** No holder has the same resource twice. */
  ghost predicate Unrepeated(l: Tables) {
    && (forall c, t, res :: Count(l.customerRows, AtCustomer(c, t, res)) <= 1)
    && (forall u, t, res :: Count(l.userRows, AtUser(u, t, res)) <= 1)
  }

  ghost predicate CustomerRowLinked(l: Tables, r: CustomerRow) {
    r.customerId in l.customers && l.customers[r.customerId].tenantId == r.tenantId
  }

  /** A user row belongs to the user's own customer and tenant, and sits below a customer row. */
  ghost predicate UserRowLinked(l: Tables, r: UserRow) {
    && r.userId in l.users
    && l.users[r.userId].customerId == Some(r.customerId)
    && l.users[r.userId].tenantId == Some(r.tenantId)
    && r.customerId in l.customers && l.customers[r.customerId].tenantId == r.tenantId
    && Count(l.customerRows, AtCustomer(r.customerId, r.kind, r.resourceId)) > 0
  }

  ghost predicate Linked(l: Tables) {
    && (forall r :: r in l.customerRows ==> CustomerRowLinked(l, r))
    && (forall r :: r in l.userRows ==> UserRowLinked(l, r))
  }

  ghost predicate Consistent(l: Tables) {
    Counted(l) && Unrepeated(l) && Linked(l)
  }

  /** What a subscription's usage counts beside the tenant's customer rows. */
  function Offset(l: Tables, tenant: Id, t: ResourceType): int
    requires tenant in l.subscriptions
  {
    Read(l.subscriptions[tenant].usage, t) - Count(l.customerRows, InTenant(tenant, t))
  }

  /** Users, resources, permissions and limits stay; limit records are only ever added, without limits. */
  ghost predicate SameSettings(l: Tables, m: Tables) {
    && m.users == l.users && m.resources == l.resources
    && m.customers.Keys == l.customers.Keys && m.subscriptions.Keys == l.subscriptions.Keys
    && (forall c :: c in l.customers ==> m.customers[c] == l.customers[c].(usage := m.customers[c].usage))
    && (forall s :: s in l.subscriptions ==> m.subscriptions[s] == l.subscriptions[s].(usage := m.subscriptions[s].usage))
    && l.limits.Keys <= m.limits.Keys
    && (forall k :: k in m.limits ==> m.limits[k].limits == if k in l.limits then l.limits[k].limits else map[])
  }

  ghost predicate SameOffsets(l: Tables, m: Tables) {
    && m.subscriptions.Keys == l.subscriptions.Keys
    && forall s, t :: s in l.subscriptions ==> Offset(m, s, t) == Offset(l, s, t)
  }

  /** Tables with no assignment in them and every counter at zero are consistent. */
  lemma EmptyConsistent(l: Tables)
    requires l.customerRows == [] && l.userRows == [] && l.limits == map[]
    requires forall c, t :: c in l.customers ==> Read(l.customers[c].usage, t) == 0
    requires forall s, t :: s in l.subscriptions ==> Read(l.subscriptions[s].usage, t) >= 0
    ensures Consistent(l)
  {
    forall u, c, t ensures UserUsage(l, u, c, t) == Count(l.userRows, OfUser(u, c, t)) {}
  }

  // ---- Each operation keeps them ---------------------------------------------------

  lemma CustomerRowAdded(l: Tables, x: CustomerRow)
    ensures forall p: CustomerRow -> bool ::
              Count(l.customerRows + [x], p) == Count(l.customerRows, p) + if p(x) then 1 else 0
  {
    forall p: CustomerRow -> bool {
      CountAppend(l.customerRows, x, p);
    }
  }

  lemma UserRowAdded(l: Tables, x: UserRow)
    ensures forall p: UserRow -> bool ::
              Count(l.userRows + [x], p) == Count(l.userRows, p) + if p(x) then 1 else 0
  {
    forall p: UserRow -> bool {
      CountAppend(l.userRows, x, p);
    }
  }

  lemma AssignToCustomerOffsets(l: Tables, res: Id, t: ResourceType, c: Id, actor: Actor)
    requires Counted(l) && actor.tenantId in l.subscriptions
    ensures var m := CommitAssignToCustomer(l, res, t, c, actor);
            SameOffsets(l, m) && forall s, t' :: s in m.subscriptions ==> Offset(m, s, t') >= 0
  {
    CustomerRowAdded(l, CustomerRow(c, t, res, actor.tenantId));
    var m := CommitAssignToCustomer(l, res, t, c, actor);
    forall s, t' | s in l.subscriptions ensures Offset(m, s, t') == Offset(l, s, t') >= 0 {
      assert Read(l.subscriptions[s].usage, t') >= Count(l.customerRows, InTenant(s, t'));
    }
  }

  lemma AssignToCustomerCounted(l: Tables, res: Id, t: ResourceType, c: Id, actor: Actor)
    requires Counted(l) && c in l.customers && actor.tenantId in l.subscriptions
    ensures var m := CommitAssignToCustomer(l, res, t, c, actor);
            Counted(m) && SameOffsets(l, m)
  {
    AssignToCustomerOffsets(l, res, t, c, actor);
    CustomerRowAdded(l, CustomerRow(c, t, res, actor.tenantId));
    var m := CommitAssignToCustomer(l, res, t, c, actor);
    forall u, c', t' ensures UserUsage(m, u, c', t') == Count(m.userRows, OfUser(u, c', t')) {
      assert UserUsage(l, u, c', t') == Count(l.userRows, OfUser(u, c', t'));
    }
    forall c', t' | c' in m.customers
      ensures Read(m.customers[c'].usage, t') == Count(m.customerRows, InCustomer(c', t'))
    {
      assert Read(l.customers[c'].usage, t') == Count(l.customerRows, InCustomer(c', t'));
    }
    forall s, t' | s in m.subscriptions
      ensures Read(m.subscriptions[s].usage, t') >= Count(m.customerRows, InTenant(s, t'))
    {
      assert Offset(m, s, t') >= 0;
    }
  }

  lemma AssignToUserCounted(l: Tables, res: Id, t: ResourceType, u: Id, c: Id, actor: Actor)
    requires Counted(l)
    ensures Counted(CommitAssignToUser(l, res, t, u, c, actor))
  {
    UserRowAdded(l, UserRow(u, c, t, res, actor.tenantId));
    var m := CommitAssignToUser(l, res, t, u, c, actor);
    forall u', c', t' ensures UserUsage(m, u', c', t') == Count(m.userRows, OfUser(u', c', t')) {
      assert UserUsage(l, u', c', t') == Count(l.userRows, OfUser(u', c', t'));
    }
  }

  lemma AssignToCustomerKeeps(l: Tables, res: Id, t: ResourceType, c: Id, actor: Actor)
    requires Consistent(l) && CheckAssignToCustomer(l, res, t, c, actor).Ok?
    ensures var m := CommitAssignToCustomer(l, res, t, c, actor);
            Consistent(m) && SameOffsets(l, m) && SameSettings(l, m)
  {
    CustomerRowAdded(l, CustomerRow(c, t, res, actor.tenantId));
    AssignToCustomerCounted(l, res, t, c, actor);
    var m := CommitAssignToCustomer(l, res, t, c, actor);
    assert Linked(m) by {
      forall r | r in m.userRows ensures UserRowLinked(m, r) {
        assert UserRowLinked(l, r);
      }
    }
  }

  lemma AssignToUserKeeps(l: Tables, res: Id, t: ResourceType, u: Id, actor: Actor)
    requires Consistent(l) && CheckAssignToUser(l, res, t, u, actor).Ok?
    ensures var m := CommitAssignToUser(l, res, t, u, l.users[u].customerId.value, actor);
            Consistent(m) && SameOffsets(l, m) && SameSettings(l, m)
  {
    UserRowAdded(l, UserRow(u, l.users[u].customerId.value, t, res, actor.tenantId));
    AssignToUserCounted(l, res, t, u, l.users[u].customerId.value, actor);
    var m := CommitAssignToUser(l, res, t, u, l.users[u].customerId.value, actor);
    assert Linked(m) by {
      forall r | r in m.userRows ensures UserRowLinked(m, r) {
        assert r in l.userRows ==> UserRowLinked(l, r);
      }
    }
  }

  /** The user row an unassignment deletes is the user's, at its own customer. */
  lemma UserRowTaken(l: Tables, res: Id, t: ResourceType, u: Id, actor: Actor)
    requires Linked(l) && CheckUnassignFromUser(l, res, t, u, actor).Ok?
    ensures l.users[u].customerId.Some?
    ensures var r := UserRow(u, l.users[u].customerId.value, t, res, actor.tenantId);
            var m := CommitUnassignFromUser(l, res, t, u, actor);
            && r in l.userRows
            && (forall p: UserRow -> bool :: Count(l.userRows, p) == Count(m.userRows, p) + if p(r) then 1 else 0)
            && (forall x :: x in m.userRows ==> x in l.userRows)
  {
    var found := AtUserIn(u, t, res, actor.tenantId);
    FirstFound(l.userRows, found);
    var r := First(l.userRows, found).value;
    assert UserRowLinked(l, r);
    forall p: UserRow -> bool {
      CountRemoveFirst(l.userRows, found, p);
    }
    RemoveFirstMembers(l.userRows, found);
  }

  lemma UnassignFromUserCounted(l: Tables, res: Id, t: ResourceType, u: Id, actor: Actor)
    requires Linked(l) && Counted(l) && CheckUnassignFromUser(l, res, t, u, actor).Ok?
    ensures Counted(CommitUnassignFromUser(l, res, t, u, actor))
    ensures l.users[u].customerId.Some?
    ensures UserUsage(l, u, l.users[u].customerId.value, t) > 0
  {
    UserRowTaken(l, res, t, u, actor);
    var c := l.users[u].customerId.value;
    var m := CommitUnassignFromUser(l, res, t, u, actor);
    assert UserUsage(l, u, c, t) == Count(l.userRows, OfUser(u, c, t)) > 0;
    forall u', c', t' ensures UserUsage(m, u', c', t') == Count(m.userRows, OfUser(u', c', t')) {
      assert UserUsage(l, u', c', t') == Count(l.userRows, OfUser(u', c', t'));
    }
  }

  lemma UnassignFromUserKeeps(l: Tables, res: Id, t: ResourceType, u: Id, actor: Actor)
    requires Consistent(l) && CheckUnassignFromUser(l, res, t, u, actor).Ok?
    ensures var m := CommitUnassignFromUser(l, res, t, u, actor);
            Consistent(m) && SameOffsets(l, m) && SameSettings(l, m)
  {
    UserRowTaken(l, res, t, u, actor);
    UnassignFromUserCounted(l, res, t, u, actor);
    var m := CommitUnassignFromUser(l, res, t, u, actor);
    assert Linked(m) by {
      forall r | r in m.userRows ensures UserRowLinked(m, r) {
        assert UserRowLinked(l, r);
      }
    }
  }

  /** Under one user's rows of one customer and kind, the cascade deletes one row or none. */
  lemma CascadeShare(l: Tables, c: Id, t: ResourceType, res: Id, u: Id, c': Id, t': ResourceType)
    requires Unrepeated(l) && Linked(l)
    ensures Count(l.userRows, Both(Below(c, t, res), OfUser(u, c', t')))
         == if c' == c && t' == t && u in Holders(l.userRows, c, t, res) then 1 else 0
  {
    var share := Both(Below(c, t, res), OfUser(u, c', t'));
    CountPositive(l.userRows, share);
    CountImplies(l.userRows, share, AtUser(u, t, res));
    if Count(l.userRows, share) > 0 {
      var r :| r in l.userRows && share(r);
      assert r.userId in Holders(l.userRows, c, t, res);
    }
  }

  lemma CascadeKeeps(l: Tables, res: Id, t: ResourceType, c: Id)
    requires Consistent(l)
    ensures var m := CascadeUsers(l, res, t, c);
            Consistent(m) && SameOffsets(l, m) && SameSettings(l, m)
    ensures forall r :: r in CascadeUsers(l, res, t, c).userRows ==> !Below(c, t, res)(r)
  {
    var m := CascadeUsers(l, res, t, c);
    forall u, c', t'
      ensures UserUsage(m, u, c', t') == Count(m.userRows, OfUser(u, c', t'))
    {
      CountSplit(l.userRows, Below(c, t, res), OfUser(u, c', t'));
      CascadeShare(l, c, t, res, u, c', t');
      assert UserUsage(l, u, c', t') == Count(l.userRows, OfUser(u, c', t'));
    }
    forall u, t', res'
      ensures Count(m.userRows, AtUser(u, t', res')) <= 1
    {
      CountSplit(l.userRows, Below(c, t, res), AtUser(u, t', res'));
    }
    FilterMembers(l.userRows, Not(Below(c, t, res)));
    forall r | r in m.userRows ensures UserRowLinked(m, r) {
      assert UserRowLinked(l, r);
    }
  }

  lemma CustomerRowTaken(l: Tables, res: Id, t: ResourceType, c: Id, actor: Actor)
    requires CheckUnassignFromCustomer(l, res, t, c, actor).Ok?
    ensures forall p: CustomerRow -> bool ::
              Count(l.customerRows, p) == Count(RemoveCustomerRow(l, res, t, c, actor).customerRows, p)
                                        + if p(CustomerRow(c, t, res, actor.tenantId)) then 1 else 0
    ensures forall r :: r in RemoveCustomerRow(l, res, t, c, actor).customerRows ==> r in l.customerRows
  {
    var found := AtCustomerIn(c, t, res, actor.tenantId);
    FirstFound(l.customerRows, found);
    assert First(l.customerRows, found).value == CustomerRow(c, t, res, actor.tenantId);
    forall p: CustomerRow -> bool {
      CountRemoveFirst(l.customerRows, found, p);
    }
    RemoveFirstMembers(l.customerRows, found);
  }

  lemma RemoveCustomerRowLinked(l: Tables, res: Id, t: ResourceType, c: Id, actor: Actor)
    requires Linked(l) && CheckUnassignFromCustomer(l, res, t, c, actor).Ok?
    requires forall r :: r in l.userRows ==> !Below(c, t, res)(r)
    ensures Linked(RemoveCustomerRow(l, res, t, c, actor))
  {
    var m := RemoveCustomerRow(l, res, t, c, actor);
    CustomerRowTaken(l, res, t, c, actor);
    forall r | r in m.customerRows ensures CustomerRowLinked(m, r) {
      assert CustomerRowLinked(l, r);
    }
    forall r | r in m.userRows ensures UserRowLinked(m, r) {
      assert UserRowLinked(l, r) && !Below(c, t, res)(r);
    }
  }

  lemma RemoveCustomerRowCounted(l: Tables, res: Id, t: ResourceType, c: Id, actor: Actor)
    requires Counted(l) && CheckUnassignFromCustomer(l, res, t, c, actor).Ok?
    ensures var m := RemoveCustomerRow(l, res, t, c, actor);
            Counted(m) && SameOffsets(l, m)
  {
    CustomerRowTaken(l, res, t, c, actor);
    var m := RemoveCustomerRow(l, res, t, c, actor);
    forall u, c', t' ensures UserUsage(m, u, c', t') == Count(m.userRows, OfUser(u, c', t')) {
      assert UserUsage(l, u, c', t') == Count(l.userRows, OfUser(u, c', t'));
    }
    forall c', t' | c' in m.customers
      ensures Read(m.customers[c'].usage, t') == Count(m.customerRows, InCustomer(c', t'))
    {
      assert Read(l.customers[c'].usage, t') == Count(l.customerRows, InCustomer(c', t'));
    }
    forall s, t' | s in l.subscriptions
      ensures Read(m.subscriptions[s].usage, t') >= Count(m.customerRows, InTenant(s, t'))
      ensures Offset(m, s, t') == Offset(l, s, t')
    {
      assert Read(l.subscriptions[s].usage, t') >= Count(l.customerRows, InTenant(s, t'));
    }
  }

  lemma RemoveCustomerRowKeeps(l: Tables, res: Id, t: ResourceType, c: Id, actor: Actor)
    requires Consistent(l) && CheckUnassignFromCustomer(l, res, t, c, actor).Ok?
    requires forall r :: r in l.userRows ==> !Below(c, t, res)(r)
    ensures var m := RemoveCustomerRow(l, res, t, c, actor);
            Consistent(m) && SameOffsets(l, m) && SameSettings(l, m)
  {
    RemoveCustomerRowLinked(l, res, t, c, actor);
    RemoveCustomerRowCounted(l, res, t, c, actor);
    assert Unrepeated(RemoveCustomerRow(l, res, t, c, actor)) by {
      CustomerRowTaken(l, res, t, c, actor);
    }
  }

  lemma UnassignFromCustomerKeeps(l: Tables, res: Id, t: ResourceType, c: Id, actor: Actor)
    requires Consistent(l) && CheckUnassignFromCustomer(l, res, t, c, actor).Ok?
    ensures var m := CommitUnassignFromCustomer(l, res, t, c, actor);
            Consistent(m) && SameOffsets(l, m) && SameSettings(l, m)
  {
    CountPositive(l.userRows, Below(c, t, res));
    if Count(l.userRows, Below(c, t, res)) > 0 {
      CascadeKeeps(l, res, t, c);
      var k := CascadeUsers(l, res, t, c);
      RemoveCustomerRowKeeps(k, res, t, c, actor);
    } else {
      RemoveCustomerRowKeeps(l, res, t, c, actor);
    }
  }

  lemma StepKeeps(l: Tables, q: Request)
    requires Consistent(l)
    ensures Consistent(Step(l, q)) && SameOffsets(l, Step(l, q)) && SameSettings(l, Step(l, q))
  {
    if Check(l, q).Ok? {
      match q
      case AssignToCustomer(res, t, c, actor) => AssignToCustomerKeeps(l, res, t, c, actor);
      case AssignToUser(res, t, u, actor) => AssignToUserKeeps(l, res, t, u, actor);
      case UnassignFromCustomer(res, t, c, actor) => UnassignFromCustomerKeeps(l, res, t, c, actor);
      case UnassignFromUser(res, t, u, actor) => UnassignFromUserKeeps(l, res, t, u, actor);
    }
  }

  /** Over every run, the counters stay exact, the rows stay linked and unrepeated, and
      subscription usage minus the tenant's rows does not move. */
  lemma {:induction false} RunKeeps(l: Tables, requests: seq<Request>)
    requires Consistent(l)
    ensures Consistent(Run(l, requests))
    ensures SameOffsets(l, Run(l, requests)) && SameSettings(l, Run(l, requests))
    decreases |requests|
  {
    if requests != [] {
      StepKeeps(l, requests[0]);
      RunKeeps(Step(l, requests[0]), requests[1..]);
    }
  }

  // ---- The clamp never fires -------------------------------------------------------

  /** GREATEST(0, n - 1) is n - 1 every time: each counter an unassignment touches is positive. */
  lemma ClampNeverFires(l: Tables, q: Request)
    requires Consistent(l) && Check(l, q).Ok?
    ensures q.UnassignFromCustomer? ==>
              && Read(l.customers[q.customerId].usage, q.kind) > 0
              && (q.actor.tenantId in l.subscriptions ==> Read(l.subscriptions[q.actor.tenantId].usage, q.kind) > 0)
              && forall u :: u in Holders(l.userRows, q.customerId, q.kind, q.res) ==>
                   UserUsage(l, u, q.customerId, q.kind) > 0
    ensures q.UnassignFromUser? ==>
              && l.users[q.userId].customerId.Some?
              && UserUsage(l, q.userId, l.users[q.userId].customerId.value, q.kind) > 0
  {
    match q
    case UnassignFromCustomer(res, t, c, actor) =>
      var found := AtCustomerIn(c, t, res, actor.tenantId);
      FirstFound(l.customerRows, found);
      CountImplies(l.customerRows, found, InCustomer(c, t));
      CountImplies(l.customerRows, found, InTenant(actor.tenantId, t));
      forall u | u in Holders(l.userRows, c, t, res) ensures UserUsage(l, u, c, t) > 0 {
        CascadeShare(l, c, t, res, u, c, t);
        CountImplies(l.userRows, Both(Below(c, t, res), OfUser(u, c, t)), OfUser(u, c, t));
      }
    case UnassignFromUser(res, t, u, actor) =>
      UserRowTaken(l, res, t, u, actor);
      UnassignFromUserCounted(l, res, t, u, actor);
    case _ =>
  }

  // ---- Ceilings --------------------------------------------------------------------

  /** The row counts, not the counters, are within every number in the limit columns; -1 in a subscription's
      limits stands for no limit, and so does a missing number anywhere. */
  ghost predicate WithinCeilings(l: Tables) {
    && (forall c, t :: c in l.customers && t in l.customers[c].allotted ==>
          Count(l.customerRows, InCustomer(c, t)) <= l.customers[c].allotted[t])
    && (forall u, c, t :: (u, c) in l.limits && t in l.limits[(u, c)].limits ==>
          Count(l.userRows, OfUser(u, c, t)) <= l.limits[(u, c)].limits[t])
    && (forall s, t :: s in l.subscriptions && t in l.subscriptions[s].limits && l.subscriptions[s].limits[t] != -1 ==>
          Count(l.customerRows, InTenant(s, t)) <= l.subscriptions[s].limits[t])
  }

  /** Nothing but customer rows is counted in a subscription's usage. */
  ghost predicate UsageIsRows(l: Tables) {
    forall s, t :: s in l.subscriptions ==> Offset(l, s, t) == 0
  }

  /** An unassignment, granted or refused, adds no row to any count. */
  lemma FewerRows(l: Tables, q: Request)
    requires Consistent(l) && (q.UnassignFromCustomer? || q.UnassignFromUser?)
    ensures forall p: CustomerRow -> bool :: Count(Step(l, q).customerRows, p) <= Count(l.customerRows, p)
    ensures forall p: UserRow -> bool :: Count(Step(l, q).userRows, p) <= Count(l.userRows, p)
  {
    if Check(l, q).Ok? {
      match q
      case UnassignFromCustomer(res, t, c, actor) =>
        forall p: CustomerRow -> bool {
          CountRemoveFirst(l.customerRows, AtCustomerIn(c, t, res, actor.tenantId), p);
        }
        forall p: UserRow -> bool {
          CountSplit(l.userRows, Below(c, t, res), p);
        }
      case UnassignFromUser(res, t, u, actor) =>
        forall p: UserRow -> bool {
          CountRemoveFirst(l.userRows, AtUserIn(u, t, res, actor.tenantId), p);
        }
    }
  }

  lemma AssignToCustomerStaysWithin(l: Tables, res: Id, t: ResourceType, c: Id, actor: Actor)
    requires Consistent(l) && UsageIsRows(l) && WithinCeilings(l)
    requires CheckAssignToCustomer(l, res, t, c, actor).Ok?
    ensures WithinCeilings(CommitAssignToCustomer(l, res, t, c, actor))
  {
    CustomerRowAdded(l, CustomerRow(c, t, res, actor.tenantId));
    assert Offset(l, actor.tenantId, t) == 0;
    var m := CommitAssignToCustomer(l, res, t, c, actor);
    forall s, t' | s in m.subscriptions && t' in m.subscriptions[s].limits && m.subscriptions[s].limits[t'] != -1
      ensures Count(m.customerRows, InTenant(s, t')) <= m.subscriptions[s].limits[t']
    {
      assert m.subscriptions[s].limits == l.subscriptions[s].limits;
    }
  }

  lemma AssignToUserStaysWithin(l: Tables, res: Id, t: ResourceType, u: Id, actor: Actor)
    requires Consistent(l) && WithinCeilings(l)
    requires CheckAssignToUser(l, res, t, u, actor).Ok?
    ensures WithinCeilings(CommitAssignToUser(l, res, t, u, l.users[u].customerId.value, actor))
  {
    var c := l.users[u].customerId.value;
    UserRowAdded(l, UserRow(u, c, t, res, actor.tenantId));
    assert UserUsage(l, u, c, t) == Count(l.userRows, OfUser(u, c, t));
  }

  /** With fewer rows and the same settings the ceilings still hold. */
  lemma FewerRowsStayWithin(l: Tables, m: Tables)
    requires WithinCeilings(l) && SameSettings(l, m) && m.limits.Keys == l.limits.Keys
    requires forall p: CustomerRow -> bool :: Count(m.customerRows, p) <= Count(l.customerRows, p)
    requires forall p: UserRow -> bool :: Count(m.userRows, p) <= Count(l.userRows, p)
    ensures WithinCeilings(m)
  {
    forall s, t | s in m.subscriptions && t in m.subscriptions[s].limits && m.subscriptions[s].limits[t] != -1
      ensures Count(m.customerRows, InTenant(s, t)) <= m.subscriptions[s].limits[t]
    {
      assert m.subscriptions[s].limits == l.subscriptions[s].limits;
    }
    forall c, t | c in m.customers && t in m.customers[c].allotted
      ensures Count(m.customerRows, InCustomer(c, t)) <= m.customers[c].allotted[t]
    {
      assert m.customers[c].allotted == l.customers[c].allotted;
    }
    forall u, c, t | (u, c) in m.limits && t in m.limits[(u, c)].limits
      ensures Count(m.userRows, OfUser(u, c, t)) <= m.limits[(u, c)].limits[t]
    {
      assert m.limits[(u, c)].limits == l.limits[(u, c)].limits;
    }
  }

  lemma StepStaysWithin(l: Tables, q: Request)
    requires Consistent(l) && UsageIsRows(l) && WithinCeilings(l)
    ensures WithinCeilings(Step(l, q))
  {
    if Check(l, q).Ok? {
      match q
      case AssignToCustomer(res, t, c, actor) => AssignToCustomerStaysWithin(l, res, t, c, actor);
      case AssignToUser(res, t, u, actor) => AssignToUserStaysWithin(l, res, t, u, actor);
      case _ =>
        StepKeeps(l, q);
        FewerRows(l, q);
        FewerRowsStayWithin(l, Step(l, q));
    }
  }

  /** Started within the ceilings, and with usage equal to rows, every sequential run stays within them. */
  lemma {:induction false} RunStaysWithin(l: Tables, requests: seq<Request>)
    requires Consistent(l) && UsageIsRows(l) && WithinCeilings(l)
    ensures WithinCeilings(Run(l, requests)) && UsageIsRows(Run(l, requests))
    decreases |requests|
  {
    if requests != [] {
      StepKeeps(l, requests[0]);
      StepStaysWithin(l, requests[0]);
      RunStaysWithin(Step(l, requests[0]), requests[1..]);
    }
  }
}
