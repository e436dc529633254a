/** The assets service: its table is changed in place, and its checks walk up with a cursor. */
module AssetsService {
  import opened Options
  import opened Counting
  import opened AssetForest
  import opened AssetHierarchy
  import opened AssetChanges

  /** `path` is the way from x up to its root, written from the root down. */
  ghost predicate IsPath(rows: Rows, x: Id, path: seq<Id>) {
    && path != []
    && (forall j :: 0 <= j < |path| ==> Up(rows, x, j) == Some(path[|path| - 1 - j]))
    && Up(rows, x, |path|) == None
  }

  class AssetsService {
    var ids: seq<Id>
    var rows: Rows
    var devices: map<Id, Id>

    ghost predicate Invariant()
      reads this
    {
      Valid(Table(ids, rows)) && Acyclic(rows)
    }

    constructor ()
      ensures Invariant() && rows == map[]
    {
      ids, rows, devices := [], map[], map[];
      new;
      assert forall x: Id, n: nat | n > 0 :: Up(rows, x, n - 1).None? || Up(rows, x, n) == None;
    }

    /** True exactly when the asset is the new parent or one of its ancestors. */
    method WouldCreateCircularReference(assetId: Option<Id>, newParentId: Id) returns (circular: bool)
      requires Acyclic(rows)
      ensures circular <==> assetId.Some? && SelfOrAncestor(rows, assetId.value, newParentId)
    {
      if assetId.None? {
        return false;
      }
      var current := Some(newParentId);
      ghost var n := 0;
      ghost var visited: set<Id> := {};
      while current.Some?
        invariant Up(rows, newParentId, n) == current
        invariant forall j: nat :: j < n ==> Up(rows, newParentId, j) != assetId
        invariant visited <= rows.Keys
        invariant forall v :: v in visited ==> exists j: nat :: j < n && Up(rows, newParentId, j) == Some(v)
        decreases rows.Keys - visited, current.Some?
      {
        if current == assetId {
          return true;
        }
        if current.value in rows {
          NotVisited(rows, newParentId, n, visited);
          assert current.value in rows.Keys - visited;
          visited := visited + {current.value};
          current := rows[current.value].parent;
        } else {
          current := None;
        }
        n := n + 1;
      }
      circular := false;
      forall m: nat ensures Up(rows, newParentId, m) != assetId {
        if m >= n && Up(rows, newParentId, m).Some? {
          UpEnds(rows, newParentId, n, m);
        }
      }
    }

    /** The way from the root to the asset, refused exactly when some asset on it is not found. */
    method GetAssetPath(id: Id, user: User) returns (r: Result<seq<Id>>)
      requires Acyclic(rows)
      ensures r.Ok? ==> IsPath(rows, id, r.value) && forall j :: 0 <= j < |r.value| ==> FindOne(rows, r.value[j], user).Ok?
      ensures r.Err? ==> exists j: nat, y :: Up(rows, id, j) == Some(y) && FindOne(rows, y, user) == Err(r.error)
    {
      var found := FindOne(rows, id, user);
      if found.Err? {
        assert Up(rows, id, 0) == Some(id);
        return Err(found.error);
      }
      var path := [id];
      var parent := found.value.parent;
      ghost var visited := {id};
      while parent.Some?
        invariant path != [] && Up(rows, id, |path|) == parent
        invariant forall j :: 0 <= j < |path| ==> Up(rows, id, j) == Some(path[|path| - 1 - j])
        invariant forall j :: 0 <= j < |path| ==> FindOne(rows, path[j], user).Ok?
        invariant visited <= rows.Keys
        invariant forall v :: v in visited ==> v in path
        decreases rows.Keys - visited
      {
        found := FindOne(rows, parent.value, user);
        if found.Err? {
          return Err(found.error);
        }
        NotOnPath(rows, id, path);
        visited := visited + {parent.value};
        path := [parent.value] + path;
        parent := found.value.parent;
      }
      r := Ok(path);
    }

    method Create(id: Id, parent: Option<Id>, customerId: Option<Id>, user: User) returns (r: Result<()>)
      requires Invariant() && FreshId(rows, id)
      modifies this`ids, this`rows
      ensures Invariant()
      ensures r == CheckCreate(old(rows), parent, user)
      ensures rows == Step(old(rows), devices, AssetForest.Create(id, parent, customerId, user))
      ensures ids == if r.Ok? then old(ids) + [id] else old(ids)
      ensures r.Ok? ==> id in rows && rows[id].parent == parent && rows[id].tenantId == user.tenantId
                        && rows[id].customerId == if user.role == CUSTOMER_USER then user.customerId else customerId
    {
      if CheckCreate(rows, parent, user).Ok? {
        Created(rows, devices, id, parent, customerId, user);
      }
      StepKeeps(rows, devices, AssetForest.Create(id, parent, customerId, user));
      r := CheckCreate(rows, parent, user);
      if parent.Some? {
        var circular := WouldCreateCircularReference(None, parent.value);
        assert !circular;
      }
      if r.Ok? {
        rows := CommitCreate(rows, id, parent, customerId, user);
        ids := ids + [id];
      }
    }

    method Update(id: Id, newParent: Change, newCustomer: Change, user: User) returns (r: Result<()>)
      requires Invariant()
      modifies this`rows
      ensures Invariant()
      ensures r == CheckUpdate(old(rows), id, newParent, newCustomer, user)
      ensures rows == Step(old(rows), devices, AssetForest.Update(id, newParent, newCustomer, user))
      ensures r.Ok? ==> id in rows && id in old(rows) && Becomes(rows[id].parent, old(rows)[id].parent, newParent)
                        && Becomes(rows[id].customerId, old(rows)[id].customerId, newCustomer)
    {
      StepKeeps(rows, devices, AssetForest.Update(id, newParent, newCustomer, user));
      var found := FindOne(rows, id, user);
      if found.Err? {
        return Err(found.error);
      }
      var asset := found.value;
      if user.role == CUSTOMER_USER && newCustomer.Set? && Some(newCustomer.id) != asset.customerId {
        return Err(Forbidden);
      }
      if newParent.Set? && Some(newParent.id) != asset.parent {
        var circular := WouldCreateCircularReference(Some(id), newParent.id);
        if circular {
          return Err(BadRequest);
        }
        if user.role == CUSTOMER_USER && newParent.id in rows && rows[newParent.id].customerId != user.customerId {
          return Err(Forbidden);
        }
      }
      rows := rows[id := asset.(parent := Apply(newParent, asset.parent), customerId := Apply(newCustomer, asset.customerId))];
      r := Ok(());
    }

    method Remove(id: Id, user: User) returns (r: Result<()>)
      requires Invariant()
      modifies this`ids, this`rows
      ensures Invariant()
      ensures r == CheckRemove(old(rows), devices, id, user)
      ensures rows == Step(old(rows), devices, AssetForest.Remove(id, user))
    {
      StepKeeps(rows, devices, AssetForest.Remove(id, user));
      r := CheckRemove(rows, devices, id, user);
      if r.Ok? {
        RemoveRow(Table(ids, rows), id);
        ids := Filter(ids, Not(IdIs(id)));
        rows := rows - {id};
      }
    }
  }

  function IdIs(id: Id): Id -> bool {
    (x: Id) => x == id
  }

  lemma NotVisited(rows: Rows, x: Id, n: nat, visited: set<Id>)
    requires Acyclic(rows) && Up(rows, x, n).Some?
    requires forall v :: v in visited ==> exists j: nat :: j < n && Up(rows, x, j) == Some(v)
    ensures Up(rows, x, n).value !in visited
  {
    if Up(rows, x, n).value in visited {
      var j: nat :| j < n && Up(rows, x, j) == Up(rows, x, n);
      NeverTwice(rows, x, j, n);
    }
  }

  lemma NotOnPath(rows: Rows, x: Id, path: seq<Id>)
    requires Acyclic(rows) && Up(rows, x, |path|).Some?
    requires forall j :: 0 <= j < |path| ==> Up(rows, x, j) == Some(path[|path| - 1 - j])
    ensures Up(rows, x, |path|).value !in path
  {
    forall i | 0 <= i < |path| ensures path[i] != Up(rows, x, |path|).value {
      assert Up(rows, x, |path| - 1 - i) == Some(path[i]);
      NeverTwice(rows, x, |path| - 1 - i, |path|);
    }
  }

  lemma {:induction false} FilterDistinct(ids: seq<Id>, p: Id -> bool)
    requires forall i, j :: 0 <= i < j < |ids| ==> ids[i] != ids[j]
    ensures var f := Filter(ids, p); forall i, j :: 0 <= i < j < |f| ==> f[i] != f[j]
  {
    if ids != [] {
      FilterDistinct(ids[1..], p);
      FilterMembers<Id>(ids[1..], p);
      assert ids[0] !in Filter(ids[1..], p);
    }
  }

  lemma RemoveRow(f: Table, id: Id)
    requires Valid(f)
    ensures Valid(Table(Filter(f.ids, Not(IdIs(id))), f.rows - {id}))
  {
    FilterDistinct(f.ids, Not<Id>(IdIs(id)));
    FilterMembers<Id>(f.ids, Not<Id>(IdIs(id)));
  }
}
