/** The tables behind resource assignment and the four operations on them, each read as
    one function from tables to tables. */
module Ledger {
  import opened Options
  import opened Counting

  datatype ResourceType = Devices | Dashboards | Assets | FloorPlans | Automations

  function PermissionName(t: ResourceType): string {
    match t
    case Devices => "devices"
    case Dashboards => "dashboards"
    case Assets => "assets"
    case FloorPlans => "floor_plans"
    case Automations => "automations"
  }

  // ---- Rows ------------------------------------------------------------------------

  /** A `usageCounters`, `usage` or `limits` column: a missing key is allowed. */
  type Counters = map<ResourceType, int>

  datatype Customer = Customer(tenantId: Id, active: bool, granted: set<string>, allotted: Counters, usage: Counters)

  datatype Subscription = Subscription(active: bool, features: map<ResourceType, bool>, limits: Counters, usage: Counters)

  datatype User = User(tenantId: Option<Id>, customerId: Option<Id>,
                       rolePermissions: set<string>, directPermissions: set<string>)

  datatype UserLimit = UserLimit(limits: Counters, usage: Counters)

  datatype CustomerRow = CustomerRow(customerId: Id, kind: ResourceType, resourceId: Id, tenantId: Id)

  datatype UserRow = UserRow(userId: Id, customerId: Id, kind: ResourceType, resourceId: Id, tenantId: Id)

  /** The user on whose behalf a request runs. A missing customerId puts no condition on a
      query, as an undefined value in a TypeORM `where` does. */
  datatype Actor = Actor(tenantId: Id, customerId: Option<Id>)

  /** `limits` is keyed by (userId, customerId), the table's unique pair. */
  datatype Tables = Tables(
    resources: set<(ResourceType, Id, Id)>,
    customers: map<Id, Customer>,
    users: map<Id, User>,
    subscriptions: map<Id, Subscription>,
    limits: map<(Id, Id), UserLimit>,
    customerRows: seq<CustomerRow>,
    userRows: seq<UserRow>)

  // ---- Row conditions --------------------------------------------------------------

  function InCustomer(c: Id, t: ResourceType): CustomerRow -> bool {
    (r: CustomerRow) => r.customerId == c && r.kind == t
  }

  function InTenant(tenant: Id, t: ResourceType): CustomerRow -> bool {
    (r: CustomerRow) => r.tenantId == tenant && r.kind == t
  }

  function AtCustomer(c: Id, t: ResourceType, res: Id): CustomerRow -> bool {
    (r: CustomerRow) => r.customerId == c && r.kind == t && r.resourceId == res
  }

  function AtCustomerIn(c: Id, t: ResourceType, res: Id, tenant: Id): CustomerRow -> bool {
    (r: CustomerRow) => r.customerId == c && r.kind == t && r.resourceId == res && r.tenantId == tenant
  }

  function OfUser(u: Id, c: Id, t: ResourceType): UserRow -> bool {
    (r: UserRow) => r.userId == u && r.customerId == c && r.kind == t
  }

  function AtUser(u: Id, t: ResourceType, res: Id): UserRow -> bool {
    (r: UserRow) => r.userId == u && r.kind == t && r.resourceId == res
  }

  function AtUserIn(u: Id, t: ResourceType, res: Id, tenant: Id): UserRow -> bool {
    (r: UserRow) => r.userId == u && r.kind == t && r.resourceId == res && r.tenantId == tenant
  }

  /** The user rows that hang below one customer row. */
  function Below(c: Id, t: ResourceType, res: Id): UserRow -> bool {
    (r: UserRow) => r.customerId == c && r.kind == t && r.resourceId == res
  }

  function Holders(rows: seq<UserRow>, c: Id, t: ResourceType, res: Id): set<Id> {
    set r | r in rows && Below(c, t, res)(r) :: r.userId
  }

  // ---- Counters --------------------------------------------------------------------

  function Read(counters: Counters, t: ResourceType): int {
    if t in counters then counters[t] else 0
  }

  function Increment(counters: Counters, t: ResourceType): Counters {
    counters[t := Read(counters, t) + 1]
  }

  function Decrement(counters: Counters, t: ResourceType): Counters {
    counters[t := Max(0, Read(counters, t) - 1)]
  }

  function IncrementCustomer(customers: map<Id, Customer>, c: Id, t: ResourceType): map<Id, Customer> {
    if c in customers then customers[c := customers[c].(usage := Increment(customers[c].usage, t))] else customers
  }

  function DecrementCustomer(customers: map<Id, Customer>, c: Id, t: ResourceType): map<Id, Customer> {
    if c in customers then customers[c := customers[c].(usage := Decrement(customers[c].usage, t))] else customers
  }

  function IncrementSubscription(subs: map<Id, Subscription>, tenant: Id, t: ResourceType): map<Id, Subscription> {
    if tenant in subs then subs[tenant := subs[tenant].(usage := Increment(subs[tenant].usage, t))] else subs
  }

  function DecrementSubscription(subs: map<Id, Subscription>, tenant: Id, t: ResourceType): map<Id, Subscription> {
    if tenant in subs then subs[tenant := subs[tenant].(usage := Decrement(subs[tenant].usage, t))] else subs
  }

  /** INSERT … ON CONFLICT: a missing record starts at one with no limits. */
  function IncrementUser(limits: map<(Id, Id), UserLimit>, u: Id, c: Id, t: ResourceType): map<(Id, Id), UserLimit> {
    if (u, c) in limits
    then limits[(u, c) := limits[(u, c)].(usage := Increment(limits[(u, c)].usage, t))]
    else limits[(u, c) := UserLimit(map[], map[t := 1])]
  }

  /** UPDATE … WHERE "userId" = u AND "customerId" = c, which never matches a null customer. */
  function DecrementUser(limits: map<(Id, Id), UserLimit>, u: Id, c: Option<Id>, t: ResourceType): map<(Id, Id), UserLimit> {
    if c.Some? && (u, c.value) in limits
    then limits[(u, c.value) := limits[(u, c.value)].(usage := Decrement(limits[(u, c.value)].usage, t))]
    else limits
  }

  /** One UPDATE over every record of the customer whose user is in `holders`. */
  function DecrementUsers(limits: map<(Id, Id), UserLimit>, holders: set<Id>, c: Id, t: ResourceType)
    : map<(Id, Id), UserLimit>
  {
    map k | k in limits ::
      if k.1 == c && k.0 in holders then limits[k].(usage := Decrement(limits[k].usage, t)) else limits[k]
  }

  // ---- Gates -----------------------------------------------------------------------

  function LoadCustomer(l: Tables, c: Id, tenant: Id): Result<Customer> {
    if c !in l.customers || l.customers[c].tenantId != tenant then Err(NotFound)
    else if !l.customers[c].active then Err(Forbidden)
    else Ok(l.customers[c])
  }

  function LoadSubscription(l: Tables, tenant: Id): Result<Subscription> {
    if tenant in l.subscriptions && l.subscriptions[tenant].active
    then Ok(l.subscriptions[tenant]) else Err(Forbidden)
  }

  /** A user is found only inside the actor's tenant, and inside the actor's customer if it has one. */
  function LoadUser(l: Tables, u: Id, actor: Actor): Result<User> {
    if u in l.users && l.users[u].tenantId == Some(actor.tenantId)
       && (actor.customerId.Some? ==> l.users[u].customerId == actor.customerId)
    then Ok(l.users[u]) else Err(NotFound)
  }

  /** Comparing with a missing limit is false in JavaScript, so no limit is never reached. */
  predicate LimitReached(limit: Option<int>, usage: int) {
    limit.Some? && usage >= limit.value
  }

  function SubscriptionLimit(s: Subscription, t: ResourceType): Option<int> {
    if t in s.limits && s.limits[t] != -1 then Some(s.limits[t]) else None
  }

  function Ceiling(limits: Counters, t: ResourceType): Option<int> {
    if t in limits then Some(limits[t]) else None
  }

  predicate HasFeature(s: Subscription, t: ResourceType) {
    t in s.features ==> s.features[t]
  }

  function PermissionGate(s: Subscription, customer: Customer, t: ResourceType): Result<()> {
    Need(HasFeature(s, t) && PermissionName(t) in customer.granted, Forbidden)
  }

  function UserPermissionGate(user: User, customer: Customer, t: ResourceType): Result<()> {
    Need(PermissionName(t) in (user.rolePermissions + user.directPermissions) * customer.granted, Forbidden)
  }

  function CustomerQuotaGate(s: Subscription, customer: Customer, t: ResourceType): Result<()> {
    Need(!LimitReached(SubscriptionLimit(s, t), Read(s.usage, t))
         && !LimitReached(Ceiling(customer.allotted, t), Read(customer.usage, t)), Forbidden)
  }

  function UserQuotaGate(l: Tables, u: Id, c: Id, t: ResourceType): Result<()> {
    Need((u, c) in l.limits ==>
           !LimitReached(Ceiling(l.limits[(u, c)].limits, t), Read(l.limits[(u, c)].usage, t)), Forbidden)
  }

  // ---- The four operations ---------------------------------------------------------

  function CheckAssignToCustomer(l: Tables, res: Id, t: ResourceType, c: Id, actor: Actor): Result<()> {
    var _ :- Need((t, res, actor.tenantId) in l.resources, NotFound);
    var customer :- LoadCustomer(l, c, actor.tenantId);
    var subscription :- LoadSubscription(l, actor.tenantId);
    var _ :- PermissionGate(subscription, customer, t);
    var _ :- CustomerQuotaGate(subscription, customer, t);
    Need(Count(l.customerRows, AtCustomer(c, t, res)) == 0, BadRequest)
  }

  function CommitAssignToCustomer(l: Tables, res: Id, t: ResourceType, c: Id, actor: Actor): Tables {
    l.(customerRows := l.customerRows + [CustomerRow(c, t, res, actor.tenantId)],
       customers := IncrementCustomer(l.customers, c, t),
       subscriptions := IncrementSubscription(l.subscriptions, actor.tenantId, t))
  }

  function CheckAssignToUser(l: Tables, res: Id, t: ResourceType, u: Id, actor: Actor): Result<()> {
    var _ :- Need((t, res, actor.tenantId) in l.resources, NotFound);
    var user :- LoadUser(l, u, actor);
    var _ :- Need(user.customerId.Some?, BadRequest);
    var c := user.customerId.value;
    var customer :- LoadCustomer(l, c, actor.tenantId);
    var subscription :- LoadSubscription(l, actor.tenantId);
    var _ :- PermissionGate(subscription, customer, t);
    var _ :- UserPermissionGate(user, customer, t);
    var _ :- Need(Count(l.customerRows, AtCustomer(c, t, res)) > 0, Forbidden);
    var _ :- UserQuotaGate(l, u, c, t);
    Need(Count(l.userRows, AtUser(u, t, res)) == 0, BadRequest)
  }

  function CommitAssignToUser(l: Tables, res: Id, t: ResourceType, u: Id, c: Id, actor: Actor): Tables {
    l.(userRows := l.userRows + [UserRow(u, c, t, res, actor.tenantId)],
       limits := IncrementUser(l.limits, u, c, t))
  }

  function CheckUnassignFromCustomer(l: Tables, res: Id, t: ResourceType, c: Id, actor: Actor): Result<()> {
    var _ :- LoadCustomer(l, c, actor.tenantId);
    Need(First(l.customerRows, AtCustomerIn(c, t, res, actor.tenantId)).Some?, NotFound)
  }

  /** Deleting the customer row and taking it off the customer and subscription counters. */
  function RemoveCustomerRow(l: Tables, res: Id, t: ResourceType, c: Id, actor: Actor): Tables {
    l.(customerRows := RemoveFirst(l.customerRows, AtCustomerIn(c, t, res, actor.tenantId)),
       customers := DecrementCustomer(l.customers, c, t),
       subscriptions := DecrementSubscription(l.subscriptions, actor.tenantId, t))
  }

  /** The bulk cascade: one update over the holders' counters and one delete. */
  function CascadeUsers(l: Tables, res: Id, t: ResourceType, c: Id): Tables {
    l.(limits := DecrementUsers(l.limits, Holders(l.userRows, c, t, res), c, t),
       userRows := Filter(l.userRows, Not(Below(c, t, res))))
  }

  function CommitUnassignFromCustomer(l: Tables, res: Id, t: ResourceType, c: Id, actor: Actor): Tables {
    RemoveCustomerRow(if Count(l.userRows, Below(c, t, res)) > 0 then CascadeUsers(l, res, t, c) else l, res, t, c, actor)
  }

  function CheckUnassignFromUser(l: Tables, res: Id, t: ResourceType, u: Id, actor: Actor): Result<()> {
    var _ :- LoadUser(l, u, actor);
    Need(First(l.userRows, AtUserIn(u, t, res, actor.tenantId)).Some?, NotFound)
  }

  function CommitUnassignFromUser(l: Tables, res: Id, t: ResourceType, u: Id, actor: Actor): Tables
    requires u in l.users
  {
    l.(userRows := RemoveFirst(l.userRows, AtUserIn(u, t, res, actor.tenantId)),
       limits := DecrementUser(l.limits, u, l.users[u].customerId, t))
  }

  // ---- Requests and runs -----------------------------------------------------------

  datatype Request =
    | AssignToCustomer(res: Id, kind: ResourceType, customerId: Id, actor: Actor)
    | AssignToUser(res: Id, kind: ResourceType, userId: Id, actor: Actor)
    | UnassignFromCustomer(res: Id, kind: ResourceType, customerId: Id, actor: Actor)
    | UnassignFromUser(res: Id, kind: ResourceType, userId: Id, actor: Actor)

  function Check(l: Tables, q: Request): Result<()> {
    match q
    case AssignToCustomer(res, t, c, actor) => CheckAssignToCustomer(l, res, t, c, actor)
    case AssignToUser(res, t, u, actor) => CheckAssignToUser(l, res, t, u, actor)
    case UnassignFromCustomer(res, t, c, actor) => CheckUnassignFromCustomer(l, res, t, c, actor)
    case UnassignFromUser(res, t, u, actor) => CheckUnassignFromUser(l, res, t, u, actor)
  }

  /** A refused request leaves the tables as they are. */
  function Step(l: Tables, q: Request): Tables {
    if Check(l, q).Err? then l else
    match q
    case AssignToCustomer(res, t, c, actor) => CommitAssignToCustomer(l, res, t, c, actor)
    case AssignToUser(res, t, u, actor) => CommitAssignToUser(l, res, t, u, l.users[u].customerId.value, actor)
    case UnassignFromCustomer(res, t, c, actor) => CommitUnassignFromCustomer(l, res, t, c, actor)
    case UnassignFromUser(res, t, u, actor) => CommitUnassignFromUser(l, res, t, u, actor)
  }

  function Run(l: Tables, requests: seq<Request>): Tables
    decreases |requests|
  {
    if requests == [] then l else Run(Step(l, requests[0]), requests[1..])
  }
}
