/** Exactly which changes to the asset table are granted, and what they write, column by column. */
module AssetChanges {
  import opened Options
  import opened Counting
  import opened AssetForest
  import opened AssetHierarchy

  /** The asset exists and is the user's to see: of its own customer for a customer user, of its own tenant for a
      tenant admin, any for the other roles. */
  ghost predicate Sees(rows: Rows, user: User, id: Id) {
    && id in rows
    && (user.role == CUSTOMER_USER ==> user.customerId != None && rows[id].customerId == user.customerId)
    && (user.role == TENANT_ADMIN ==> user.tenantId != None && rows[id].tenantId == user.tenantId)
  }

  lemma FindOneDecided(rows: Rows, id: Id, user: User)
    ensures var r := FindOne(rows, id, user);
            && (r.Ok? <==> Sees(rows, user, id)) && (r.Ok? ==> r.value == rows[id])
            && (r == Err(Forbidden) <==> user.role == CUSTOMER_USER && user.customerId == None)
            && (r.Err? ==> r.error in {NotFound, Forbidden})
  {
  }

  // ---- create ----------------------------------------------------------------------

  /** The parent is a row of the user's tenant, if the user has one. */
  ghost predicate ParentFound(rows: Rows, p: Id, user: User) {
    p in rows && (user.tenantId == None || rows[p].tenantId == user.tenantId)
  }

  lemma CreateDecided(rows: Rows, parent: Option<Id>, user: User)
    ensures var r := CheckCreate(rows, parent, user);
            && (r.Ok? <==> forall p :: parent == Some(p) ==>
                  ParentFound(rows, p, user) && (user.role == CUSTOMER_USER ==> rows[p].customerId == user.customerId))
            && (r == Err(NotFound) <==> exists p :: parent == Some(p) && !ParentFound(rows, p, user))
            && (r.Err? ==> r.error in {NotFound, Forbidden})
  {
  }

  /** The new row has the parent asked for, the user's tenant, and the customer asked for unless a customer user
      creates it; no other row is touched. */
  lemma Created(rows: Rows, devices: map<Id, Id>, id: Id, parent: Option<Id>, customerId: Option<Id>, user: User)
    requires CheckCreate(rows, parent, user).Ok? && FreshId(rows, id)
    ensures var after := Step(rows, devices, Create(id, parent, customerId, user));
            && after.Keys == rows.Keys + {id}
            && after[id].parent == parent && after[id].tenantId == user.tenantId
            && (user.role == CUSTOMER_USER ==> after[id].customerId == user.customerId)
            && (user.role != CUSTOMER_USER ==> after[id].customerId == customerId)
            && forall x :: x in rows ==> after[x] == rows[x]
  {
  }

  // ---- update ----------------------------------------------------------------------

  /** A new parent is set that is not the present one. */
  ghost predicate Moves(rows: Rows, id: Id, newParent: Change)
    requires id in rows
  {
    exists p: Id :: newParent == Set(p) && rows[id].parent != Some(p)
  }

  /** A customer user asks for another customer than the asset's. */
  ghost predicate LeavesCustomer(rows: Rows, id: Id, newCustomer: Change, user: User)
    requires id in rows
  {
    user.role == CUSTOMER_USER && exists c: Id :: newCustomer == Set(c) && rows[id].customerId != Some(c)
  }

  /** Following parents from x upwards, x included, leads to a. */
  ghost predicate InWayUp(rows: Rows, a: Id, x: Id) {
    exists path: seq<Id> ::
      && path != [] && path[0] == x && path[|path| - 1] == a
      && forall i :: 0 <= i < |path| - 1 ==> path[i] in rows && rows[path[i]].parent == Some(path[i + 1])
  }

  lemma {:induction false} PathTo(rows: Rows, x: Id, n: nat) returns (path: seq<Id>)
    requires Up(rows, x, n).Some?
    ensures |path| == n + 1 && path[0] == x && path[n] == Up(rows, x, n).value
    ensures forall i :: 0 <= i < n ==> path[i] in rows && rows[path[i]].parent == Some(path[i + 1])
  {
    if n == 0 {
      path := [x];
    } else {
      path := PathTo(rows, x, n - 1);
      path := path + [Up(rows, x, n).value];
    }
  }

  lemma {:induction false} UpAlong(rows: Rows, path: seq<Id>, n: nat)
    requires n < |path| && forall i :: 0 <= i < |path| - 1 ==> path[i] in rows && rows[path[i]].parent == Some(path[i + 1])
    ensures Up(rows, path[0], n) == Some(path[n])
  {
    if n > 0 {
      UpAlong(rows, path, n - 1);
    }
  }

  lemma WayUpExact(rows: Rows, a: Id, x: Id)
    ensures SelfOrAncestor(rows, a, x) <==> InWayUp(rows, a, x)
  {
    if n: nat :| Up(rows, x, n) == Some(a) {
      var path := PathTo(rows, x, n);
    }
    if path: seq<Id> :|
      && path != [] && path[0] == x && path[|path| - 1] == a
      && forall i :: 0 <= i < |path| - 1 ==> path[i] in rows && rows[path[i]].parent == Some(path[i + 1])
    {
      UpAlong(rows, path, |path| - 1);
    }
  }

  /** Refused for a customer user who would change the customer; for a move that closes a cycle; and for a customer
      user's move below an existing asset of another customer. */
  lemma UpdateDecided(rows: Rows, id: Id, newParent: Change, newCustomer: Change, user: User)
    ensures var r := CheckUpdate(rows, id, newParent, newCustomer, user);
            && (r.Ok? <==>
                  && Sees(rows, user, id) && !LeavesCustomer(rows, id, newCustomer, user)
                  && (Moves(rows, id, newParent) ==>
                        && !InWayUp(rows, id, newParent.id)
                        && (user.role == CUSTOMER_USER && newParent.id in rows ==> rows[newParent.id].customerId == user.customerId)))
            && (r == Err(BadRequest) <==>
                  && Sees(rows, user, id) && !LeavesCustomer(rows, id, newCustomer, user)
                  && Moves(rows, id, newParent) && InWayUp(rows, id, newParent.id))
            && (r == Err(NotFound) <==> FindOne(rows, id, user) == Err(NotFound))
            && (r.Err? ==> r.error in {NotFound, Forbidden, BadRequest})
  {
    FindOneDecided(rows, id, user);
    if newParent.Set? {
      WayUpExact(rows, id, newParent.id);
    }
  }

  /** What a column holds after a change: the value set, nothing if cleared, else what it held. */
  ghost predicate Becomes(after: Option<Id>, before: Option<Id>, c: Change) {
    && (forall x: Id :: c == Set(x) ==> after == Some(x))
    && (c == Clear ==> after == None)
    && (c == Keep ==> after == before)
  }

  lemma Updated(rows: Rows, devices: map<Id, Id>, id: Id, newParent: Change, newCustomer: Change, user: User)
    requires CheckUpdate(rows, id, newParent, newCustomer, user).Ok?
    ensures var after := Step(rows, devices, Update(id, newParent, newCustomer, user));
            && id in rows && after.Keys == rows.Keys
            && Becomes(after[id].parent, rows[id].parent, newParent)
            && Becomes(after[id].customerId, rows[id].customerId, newCustomer)
            && after[id].tenantId == rows[id].tenantId
            && forall x :: x in rows && x != id ==> after[x] == rows[x]
  {
    FindOneDecided(rows, id, user);
  }

  // ---- remove ----------------------------------------------------------------------

  /** Granted exactly for an admin who sees the asset, when it has neither a child nor a device. */
  lemma RemoveDecided(rows: Rows, devices: map<Id, Id>, id: Id, user: User)
    ensures var r := CheckRemove(rows, devices, id, user);
            && (r.Ok? <==>
                  && Sees(rows, user, id) && user.role in {SUPER_ADMIN, TENANT_ADMIN}
                  && !(exists x :: x in rows && rows[x].parent == Some(id))
                  && !(exists d :: d in devices && devices[d] == id))
            && (r == Err(BadRequest) <==>
                  && Sees(rows, user, id) && user.role in {SUPER_ADMIN, TENANT_ADMIN}
                  && ((exists x :: x in rows && rows[x].parent == Some(id)) || exists d :: d in devices && devices[d] == id))
            && (r == Err(NotFound) <==> FindOne(rows, id, user) == Err(NotFound))
            && (r.Err? ==> r.error in {NotFound, Forbidden, BadRequest})
  {
    FindOneDecided(rows, id, user);
  }

  lemma Removed(rows: Rows, devices: map<Id, Id>, id: Id, user: User)
    requires CheckRemove(rows, devices, id, user).Ok?
    ensures var after := Step(rows, devices, Remove(id, user));
            && id in rows && after.Keys == rows.Keys - {id} && forall x :: x in after ==> after[x] == rows[x]
  {
    FindOneDecided(rows, id, user);
  }

  lemma RefusedKeeps(rows: Rows, devices: map<Id, Id>, op: Op)
    requires op.Create? ==> CheckCreate(rows, op.parent, op.user).Err?
    requires op.Update? ==> CheckUpdate(rows, op.id, op.newParent, op.newCustomer, op.user).Err?
    requires op.Remove? ==> CheckRemove(rows, devices, op.id, op.user).Err?
    ensures Step(rows, devices, op) == rows
  {
  }

  // ---- getHierarchy ----------------------------------------------------------------

  /** The tree is refused exactly when the start is not the user's to see, with the look-up's error. */
  lemma HierarchyDecided(f: Table, user: User, id: Id, maxDepth: int)
    ensures var r := GetHierarchy(f, user, id, maxDepth);
            && (r.Ok? <==> Sees(f.rows, user, id))
            && (r.Err? ==> FindOne(f.rows, id, user) == Err(r.error))
  {
    FindOneDecided(f.rows, id, user);
  }

  /** The children of a node are its child rows that the user sees. */
  lemma ChildrenDecided(f: Table, user: User, x: Id)
    requires Valid(f) && Sees(f.rows, user, x)
    ensures forall c :: c in Children(f, user, x) <==> Sees(f.rows, user, c) && f.rows[c].parent == Some(x)
  {
    FilterMembers<Id>(f.ids, IsVisibleChild(f.rows, user, x));
  }
}
