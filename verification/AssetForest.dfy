/** The asset table as a parent relation: re-parenting, walking to the root, and the tree
    that getHierarchy builds. */
module AssetForest {
  import opened Options

  datatype Role = SUPER_ADMIN | TENANT_ADMIN | CUSTOMER | CUSTOMER_USER | USER

  datatype User = User(role: Role, tenantId: Option<Id>, customerId: Option<Id>)

  datatype Asset = Asset(tenantId: Option<Id>, customerId: Option<Id>, parent: Option<Id>)

  type Rows = map<Id, Asset>

  // ---- Queries ---------------------------------------------------------------------

  /** The row filter a user's role adds to a query. */
  predicate Visible(user: User, a: Asset) {
    match user.role
    case CUSTOMER_USER => user.customerId.Some? && a.customerId == user.customerId
    case TENANT_ADMIN => user.tenantId.Some? && a.tenantId == user.tenantId
    case _ => true
  }

  function FindOne(rows: Rows, id: Id, user: User): Result<Asset> {
    if user.role == CUSTOMER_USER && user.customerId.None? then Err(Forbidden)
    else if id in rows && Visible(user, rows[id]) then Ok(rows[id])
    else Err(NotFound)
  }

  /** The n-th step up from x: x itself, its parent, its parent's parent. A step may lead to
      an id without a row, from where there is none further. */
  function Up(rows: Rows, x: Id, n: nat): Option<Id> {
    if n == 0 then Some(x) else
    var below := Up(rows, x, n - 1);
    if below.Some? && below.value in rows then rows[below.value].parent else None
  }

  ghost predicate Acyclic(rows: Rows) {
    forall x: Id, n: nat | n > 0 :: Up(rows, x, n) != Some(x)
  }

  ghost predicate SelfOrAncestor(rows: Rows, a: Id, x: Id) {
    exists n: nat :: Up(rows, x, n) == Some(a)
  }

  // ---- Walking up ------------------------------------------------------------------

  lemma {:induction false} UpAdd(rows: Rows, x: Id, m: nat, n: nat)
    requires Up(rows, x, m).Some?
    ensures Up(rows, x, m + n) == Up(rows, Up(rows, x, m).value, n)
  {
    if n > 0 {
      UpAdd(rows, x, m, n - 1);
    }
  }

  lemma {:induction false} UpEnds(rows: Rows, x: Id, m: nat, n: nat)
    requires m <= n && Up(rows, x, n).Some?
    ensures Up(rows, x, m).Some?
    ensures m < n ==> Up(rows, x, m).value in rows
  {
    if m < n {
      UpEnds(rows, x, m, n - 1);
    }
  }

  /** On an acyclic table no id is met twice on the way up. */
  lemma NeverTwice(rows: Rows, x: Id, m: nat, n: nat)
    requires Acyclic(rows) && m < n && Up(rows, x, n).Some?
    ensures Up(rows, x, m) != Up(rows, x, n)
  {
    UpEnds(rows, x, m, n);
    UpAdd(rows, x, m, n - m);
  }

  ghost predicate AgreeBut(rows: Rows, after: Rows, id: Id) {
    forall y :: y != id ==> (y in rows <==> y in after) && (y in rows ==> rows[y] == after[y])
  }

  /** Changing the row of `id` changes nothing on a way up that does not go through it. */
  lemma {:induction false} UpElsewhere(rows: Rows, after: Rows, id: Id, x: Id, n: nat)
    requires AgreeBut(rows, after, id)
    requires forall j: nat | j < n :: Up(after, x, j) != Some(id)
    ensures Up(rows, x, n) == Up(after, x, n)
  {
    if n > 0 {
      UpElsewhere(rows, after, id, x, n - 1);
      assert Up(after, x, n - 1) != Some(id);
    }
  }

  lemma {:induction false} FirstVisit(rows: Rows, after: Rows, id: Id, x: Id, n: nat)
    requires AgreeBut(rows, after, id)
    requires Up(after, x, n) == Some(id)
    ensures SelfOrAncestor(rows, id, x)
  {
    if j: nat :| j < n && Up(after, x, j) == Some(id) {
      FirstVisit(rows, after, id, x, j);
    } else {
      UpElsewhere(rows, after, id, x, n);
    }
  }

  /** Giving `id` a parent that it is not already above keeps the table acyclic. */
  lemma SetParentKeeps(rows: Rows, id: Id, a: Asset)
    requires Acyclic(rows)
    requires a.parent.Some? ==> !SelfOrAncestor(rows, id, a.parent.value)
    ensures Acyclic(rows[id := a])
  {
    var after := rows[id := a];
    forall x: Id, n: nat | n > 0 ensures Up(after, x, n) != Some(x) {
      if Up(after, x, n) == Some(x) {
        if j: nat :| j < n && Up(after, x, j) == Some(id) {
          UpAdd(after, x, j, n);
          UpAdd(after, x, n, j);
          assert Up(after, id, n) == Some(id);
          UpEnds(after, id, 1, n);
          UpAdd(after, id, 1, n - 1);
          FirstVisit(rows, after, id, a.parent.value, n - 1);
        } else {
          UpElsewhere(rows, after, id, x, n);
        }
      }
    }
  }

  lemma {:induction false} UpAfterRemoval(rows: Rows, id: Id, x: Id, n: nat)
    ensures Up(rows - {id}, x, n).Some? ==> Up(rows, x, n) == Up(rows - {id}, x, n)
  {
    if n > 0 {
      UpAfterRemoval(rows, id, x, n - 1);
    }
  }

  lemma RemoveKeeps(rows: Rows, id: Id)
    requires Acyclic(rows)
    ensures Acyclic(rows - {id})
  {
    forall x: Id, n: nat | n > 0 ensures Up(rows - {id}, x, n) != Some(x) {
      UpAfterRemoval(rows, id, x, n);
    }
  }

  // ---- create, update, remove ------------------------------------------------------

  datatype Change = Keep | Clear | Set(id: Id)

  function Apply(c: Change, current: Option<Id>): Option<Id> {
    match c
    case Keep => current
    case Clear => None
    case Set(id) => Some(id)
  }

  datatype Op =
    | Create(id: Id, parent: Option<Id>, customerId: Option<Id>, user: User)
    | Update(id: Id, newParent: Change, newCustomer: Change, user: User)
    | Remove(id: Id, user: User)

  /** The generated id of a new asset is in nobody's row and nobody's parent pointer. */
  ghost predicate FreshId(rows: Rows, id: Id) {
    id !in rows && forall x :: x in rows ==> rows[x].parent != Some(id)
  }

  function CheckCreate(rows: Rows, parent: Option<Id>, user: User): Result<()> {
    if parent.None? then Ok(())
    else
      var p := parent.value;
      var _ :- Need(p in rows && (user.tenantId.Some? ==> rows[p].tenantId == user.tenantId), NotFound);
      Need(user.role == CUSTOMER_USER ==> rows[p].customerId == user.customerId, Forbidden)
  }

  function CommitCreate(rows: Rows, id: Id, parent: Option<Id>, customerId: Option<Id>, user: User): Rows {
    rows[id := Asset(user.tenantId, if user.role == CUSTOMER_USER then user.customerId else customerId, parent)]
  }

  ghost function CheckUpdate(rows: Rows, id: Id, parent: Change, customerId: Change, user: User): Result<()> {
    var asset :- FindOne(rows, id, user);
    var _ :- Need(user.role == CUSTOMER_USER && customerId.Set? ==> Some(customerId.id) == asset.customerId, Forbidden);
    if !parent.Set? || Some(parent.id) == asset.parent then Ok(())
    else
      var _ :- Need(!SelfOrAncestor(rows, id, parent.id), BadRequest);
      Need(user.role == CUSTOMER_USER && parent.id in rows ==> rows[parent.id].customerId == user.customerId, Forbidden)
  }

  function CommitUpdate(rows: Rows, id: Id, parent: Change, customerId: Change): Rows
    requires id in rows
  {
    rows[id := rows[id].(parent := Apply(parent, rows[id].parent), customerId := Apply(customerId, rows[id].customerId))]
  }

  function CheckRemove(rows: Rows, devices: map<Id, Id>, id: Id, user: User): Result<()> {
    var asset :- FindOne(rows, id, user);
    var _ :- Need(user.role == SUPER_ADMIN || user.role == TENANT_ADMIN, Forbidden);
    var _ :- Need(forall x :: x in rows ==> rows[x].parent != Some(id), BadRequest);
    Need(forall d :: d in devices ==> devices[d] != id, BadRequest)
  }

  ghost function Step(rows: Rows, devices: map<Id, Id>, op: Op): Rows {
    match op
    case Create(id, parent, customerId, user) =>
      if CheckCreate(rows, parent, user).Ok? then CommitCreate(rows, id, parent, customerId, user) else rows
    case Update(id, parent, customerId, user) =>
      if CheckUpdate(rows, id, parent, customerId, user).Ok? then CommitUpdate(rows, id, parent, customerId) else rows
    case Remove(id, user) =>
      if CheckRemove(rows, devices, id, user).Ok? then rows - {id} else rows
  }

  ghost predicate FreshIds(rows: Rows, devices: map<Id, Id>, ops: seq<Op>)
    decreases |ops|
  {
    ops != [] ==> (ops[0].Create? ==> FreshId(rows, ops[0].id)) && FreshIds(Step(rows, devices, ops[0]), devices, ops[1..])
  }

  ghost function Run(rows: Rows, devices: map<Id, Id>, ops: seq<Op>): Rows
    decreases |ops|
  {
    if ops == [] then rows else Run(Step(rows, devices, ops[0]), devices, ops[1..])
  }

  lemma StepKeeps(rows: Rows, devices: map<Id, Id>, op: Op)
    requires Acyclic(rows) && (op.Create? ==> FreshId(rows, op.id))
    ensures Acyclic(Step(rows, devices, op))
  {
    match op
    case Create(id, parent, customerId, user) =>
      if CheckCreate(rows, parent, user).Ok? {
        SetParentKeeps(rows, id, CommitCreate(rows, id, parent, customerId, user)[id]);
      }
    case Update(id, parent, customerId, user) =>
      if CheckUpdate(rows, id, parent, customerId, user).Ok? {
        var a := CommitUpdate(rows, id, parent, customerId)[id];
        if a.parent.Some? && SelfOrAncestor(rows, id, a.parent.value) {
          var n: nat :| Up(rows, a.parent.value, n) == Some(id);
          assert Up(rows, id, 1) == a.parent;
          UpAdd(rows, id, 1, n);
          assert false;
        }
        SetParentKeeps(rows, id, a);
      }
    case Remove(id, user) => RemoveKeeps(rows, id);
  }

  /** Every run of create, update and remove keeps the parent relation acyclic. */
  lemma {:induction false} RunKeeps(rows: Rows, devices: map<Id, Id>, ops: seq<Op>)
    requires Acyclic(rows) && FreshIds(rows, devices, ops)
    ensures Acyclic(Run(rows, devices, ops))
    decreases |ops|
  {
    if ops != [] {
      StepKeeps(rows, devices, ops[0]);
      RunKeeps(Step(rows, devices, ops[0]), devices, ops[1..]);
    }
  }

  /** The check is exact: re-parenting that it refuses would have closed a cycle. */
  lemma RefusedIsCyclic(rows: Rows, id: Id, a: Asset)
    requires Acyclic(rows) && a.parent.Some?
    ensures Acyclic(rows[id := a]) <==> !SelfOrAncestor(rows, id, a.parent.value)
  {
    if SelfOrAncestor(rows, id, a.parent.value) {
      var n: nat :| Up(rows, a.parent.value, n) == Some(id);
      forall j: nat | j < n ensures Up(rows, a.parent.value, j) != Some(id) {
        NeverTwice(rows, a.parent.value, j, n);
      }
      UpElsewhere(rows[id := a], rows, id, a.parent.value, n);
      assert Up(rows[id := a], id, 1) == a.parent;
      UpAdd(rows[id := a], id, 1, n);
      assert Up(rows[id := a], id, n + 1) == Some(id);
    } else {
      SetParentKeeps(rows, id, a);
    }
  }
}
