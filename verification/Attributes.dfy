/** Attribute rows of every entity in one table, and the map they stand for. */
module Attributes {
  import opened Options

  // ---- Typed values ----------------------------------------------------------------

  datatype DataType = STRING | NUMBER | BOOLEAN | JSON

  /** A JavaScript value; `json` is the text of any that is not a string, number or boolean, null included. */
  datatype Value = Str(s: string) | Num(n: real) | Bool(b: bool) | Json(json: string)

  /** The value columns of a row. */
  datatype Columns = Columns(dataType: DataType, stringValue: Option<string>, numberValue: Option<real>,
                             booleanValue: Option<bool>, jsonValue: Option<string>)

  function DetermineDataType(v: Value): DataType {
    match v
    case Str(_) => STRING
    case Num(_) => NUMBER
    case Bool(_) => BOOLEAN
    case Json(_) => JSON
  }

  /** Resets every column and fills the one of the value's type. */
  function SetValue(c: Columns, v: Value): Columns {
    var reset := c.(stringValue := None, numberValue := None, booleanValue := None, jsonValue := None,
                      dataType := DetermineDataType(v));
    match v
    case Str(s) => reset.(stringValue := Some(s))
    case Num(n) => reset.(numberValue := Some(n))
    case Bool(b) => reset.(booleanValue := Some(b))
    case Json(j) => reset.(jsonValue := Some(j))
  }

  /** None where the column of the row's type is empty. */
  function GetValue(c: Columns): Option<Value> {
    match c.dataType
    case STRING => if c.stringValue.Some? then Some(Str(c.stringValue.value)) else None
    case NUMBER => if c.numberValue.Some? then Some(Num(c.numberValue.value)) else None
    case BOOLEAN => if c.booleanValue.Some? then Some(Bool(c.booleanValue.value)) else None
    case JSON => if c.jsonValue.Some? then Some(Json(c.jsonValue.value)) else None
  }

  /** A value written over any other, of whatever type, is read back with its own type. */
  lemma ValueReadsBack(c: Columns, v: Value)
    ensures GetValue(SetValue(c, v)) == Some(v)
  {
  }

  /** The value's own column holds it, the three others are empty, and the type says which. */
  lemma ColumnsExact(c: Columns, v: Value)
    ensures var x := SetValue(c, v);
            && (x.dataType == STRING <==> v.Str?) && (x.dataType == NUMBER <==> v.Num?)
            && (x.dataType == BOOLEAN <==> v.Bool?) && (x.dataType == JSON <==> v.Json?)
            && (forall s :: x.stringValue == Some(s) <==> v == Str(s)) && (forall n :: x.numberValue == Some(n) <==> v == Num(n))
            && (forall b :: x.booleanValue == Some(b) <==> v == Bool(b)) && (forall j :: x.jsonValue == Some(j) <==> v == Json(j))
  {
  }

  // ---- Rows ------------------------------------------------------------------------

  datatype Scope = SERVER | SHARED | CLIENT

  datatype Entity = Entity(tenantId: Id, entityType: string, entityId: Id)

  datatype Row = Row(entity: Entity, key: string, scope: Scope, columns: Columns, deleted: bool)

  const EMPTY := Columns(JSON, None, None, None, None)

  /** The unique index is on (tenantId, entityType, entityId, attributeKey): it takes in every scope, and the rows
      that are soft-deleted. */
  ghost predicate Unique(table: seq<Row>) {
    forall i, j :: 0 <= i < j < |table| ==> table[i].entity != table[j].entity || table[i].key != table[j].key
  }

  /** A live row of the entity, in the scope if one is given. */
  predicate Visible(r: Row, e: Entity, scope: Option<Scope>) {
    r.entity == e && !r.deleted && (scope.Some? ==> r.scope == scope.value)
  }

  predicate IsLive(r: Row, e: Entity, scope: Scope, key: string) {
    Visible(r, e, Some(scope)) && r.key == key
  }

  predicate Taken(r: Row, e: Entity, key: string) {
    r.entity == e && r.key == key
  }

  // ---- Operations ------------------------------------------------------------------

  predicate HasLive(table: seq<Row>, e: Entity, scope: Scope, key: string) {
    exists i :: 0 <= i < |table| && IsLive(table[i], e, scope, key)
  }

  predicate HasKey(table: seq<Row>, e: Entity, key: string) {
    exists i :: 0 <= i < |table| && Taken(table[i], e, key)
  }

  function Written(r: Row, e: Entity, scope: Scope, key: string, v: Value): Row {
    if IsLive(r, e, scope, key) then r.(columns := SetValue(r.columns, v)) else r
  }

  function WriteAll(table: seq<Row>, e: Entity, scope: Scope, key: string, v: Value): seq<Row> {
    seq(|table|, i requires 0 <= i < |table| => Written(table[i], e, scope, key, v))
  }

  /** One turn of saveAttributes: update the live row, or insert one, which the index may refuse. */
  function SaveOne(table: seq<Row>, e: Entity, scope: Scope, key: string, v: Value): Result<seq<Row>> {
    if HasLive(table, e, scope, key) then
      Ok(WriteAll(table, e, scope, key, v))
    else if HasKey(table, e, key) then Err(UniqueViolation)
    else Ok(table + [Row(e, key, scope, SetValue(EMPTY, v), false)])
  }

  /** Each key in turn; a refused insert ends the call and leaves the keys before it saved. */
  function SaveEach(table: seq<Row>, e: Entity, scope: Scope, entries: seq<(string, Value)>): (seq<Row>, Result<()>)
    decreases |entries|
  {
    if entries == [] then (table, Ok(())) else
    match SaveOne(table, e, scope, entries[0].0, entries[0].1)
    case Err(x) => (table, Err(x))
    case Ok(t) => SaveEach(t, e, scope, entries[1..])
  }

  /** The object that findByEntity fills, row after row. */
  function Find(table: seq<Row>, e: Entity, scope: Option<Scope>): map<string, Option<Value>> {
    if table == [] then map[] else
    var last := table[|table| - 1];
    var before := Find(table[..|table| - 1], e, scope);
    if Visible(last, e, scope) then before[last.key := GetValue(last.columns)] else before
  }

  function Deleted(r: Row, e: Entity, keys: set<string>, scope: Option<Scope>): Row {
    if Visible(r, e, scope) && r.key in keys then r.(deleted := true) else r
  }

  function DeleteKeys(table: seq<Row>, e: Entity, keys: set<string>, scope: Option<Scope>): seq<Row> {
    seq(|table|, i requires 0 <= i < |table| => Deleted(table[i], e, keys, scope))
  }

  // ---- The map behind the rows -----------------------------------------------------

  /** On a table with the unique index the object holds exactly the visible rows. */
  lemma {:induction false} FindExact(table: seq<Row>, e: Entity, scope: Option<Scope>)
    requires Unique(table)
    ensures forall k :: k in Find(table, e, scope) <==> exists i :: 0 <= i < |table| && Visible(table[i], e, scope) && table[i].key == k
    ensures forall i :: 0 <= i < |table| && Visible(table[i], e, scope) ==>
              table[i].key in Find(table, e, scope) && Find(table, e, scope)[table[i].key] == GetValue(table[i].columns)
  {
    if table != [] {
      var n := |table| - 1;
      FindExact(table[..n], e, scope);
      forall k ensures k in Find(table, e, scope) <==> exists i :: 0 <= i < |table| && Visible(table[i], e, scope) && table[i].key == k {
        if i :| 0 <= i < |table| && Visible(table[i], e, scope) && table[i].key == k {
          assert i < n ==> table[..n][i] == table[i];
        }
        if k in Find(table[..n], e, scope) {
          var i :| 0 <= i < n && Visible(table[..n][i], e, scope) && table[..n][i].key == k;
          assert table[i] == table[..n][i];
        }
      }
      forall i | 0 <= i < |table| && Visible(table[i], e, scope)
        ensures table[i].key in Find(table, e, scope) && Find(table, e, scope)[table[i].key] == GetValue(table[i].columns)
      {
        assert i < n ==> table[..n][i] == table[i];
      }
    }
  }

  /** The key has a row, deleted or in another scope, that stands in the way of a new one. */
  predicate Blocked(table: seq<Row>, e: Entity, scope: Scope, key: string) {
    HasKey(table, e, key) && !HasLive(table, e, scope, key)
  }

  lemma SaveOneUnique(table: seq<Row>, e: Entity, scope: Scope, key: string, v: Value)
    requires Unique(table) && !Blocked(table, e, scope, key)
    ensures SaveOne(table, e, scope, key, v).Ok? && Unique(SaveOne(table, e, scope, key, v).value)
  {
    var t := SaveOne(table, e, scope, key, v).value;
    assert forall i :: 0 <= i < |table| ==> t[i].entity == table[i].entity && t[i].key == table[i].key;
  }

  /** A key is blocked exactly when its row, the only one, is deleted or in another scope; then saving is refused. */
  lemma BlockedExact(table: seq<Row>, e: Entity, scope: Scope, key: string, v: Value)
    requires Unique(table)
    ensures Blocked(table, e, scope, key) <==>
            exists i :: 0 <= i < |table| && table[i].entity == e && table[i].key == key && (table[i].deleted || table[i].scope != scope)
    ensures SaveOne(table, e, scope, key, v) == Err(UniqueViolation) <==> Blocked(table, e, scope, key)
  {
    if HasKey(table, e, key) {
      var i :| 0 <= i < |table| && Taken(table[i], e, key);
      assert forall j :: 0 <= j < |table| && j != i ==> !Taken(table[j], e, key);
    }
  }

  /** A new key is appended as a live row of the entity and scope; a live one is rewritten in its place, with its
      columns alone changed. */
  lemma SavedExactly(table: seq<Row>, e: Entity, scope: Scope, key: string, v: Value)
    requires Unique(table) && !Blocked(table, e, scope, key)
    ensures var t := SaveOne(table, e, scope, key, v).value;
            && ((forall i :: 0 <= i < |table| ==> table[i].entity != e || table[i].key != key) ==>
                  && |t| == |table| + 1 && t[..|table|] == table
                  && t[|table|] == Row(e, key, scope, t[|table|].columns, false) && GetValue(t[|table|].columns) == Some(v))
            && (forall i :: 0 <= i < |table| && table[i].entity == e && table[i].key == key ==>
                  && |t| == |table| && (forall j :: 0 <= j < |table| && j != i ==> t[j] == table[j])
                  && t[i] == table[i].(columns := t[i].columns) && GetValue(t[i].columns) == Some(v))
  {
    SaveOneUnique(table, e, scope, key, v);
    forall i | 0 <= i < |table| && table[i].entity == e && table[i].key == key ensures HasLive(table, e, scope, key) {
      assert Taken(table[i], e, key);
    }
  }

  /** Saving one key blocks and frees no other. */
  lemma BlockedElsewhere(table: seq<Row>, e: Entity, scope: Scope, key: string, v: Value, sc: Scope, k: string)
    requires !Blocked(table, e, scope, key) && k != key
    ensures Blocked(SaveOne(table, e, scope, key, v).value, e, sc, k) == Blocked(table, e, sc, k)
  {
    var t := SaveOne(table, e, scope, key, v).value;
    assert forall i :: 0 <= i < |table| ==> Taken(t[i], e, k) == Taken(table[i], e, k) && IsLive(t[i], e, sc, k) == IsLive(table[i], e, sc, k);
  }

  lemma {:induction false} WriteIsUpdate(table: seq<Row>, e: Entity, scope: Scope, key: string, v: Value, i: nat)
    requires Unique(table) && i < |table| && IsLive(table[i], e, scope, key)
    ensures Find(WriteAll(table, e, scope, key, v), e, Some(scope)) == Find(table, e, Some(scope))[key := Some(v)]
  {
    var n := |table| - 1;
    var after := WriteAll(table, e, scope, key, v);
    assert after[..n] == WriteAll(table[..n], e, scope, key, v);
    if i == n {
      assert after[..n] == table[..n];
      ValueReadsBack(table[n].columns, v);
    } else {
      WriteIsUpdate(table[..n], e, scope, key, v, i);
      assert after[n] == table[n] && !Taken(table[n], e, key);
    }
  }

  /** Saving one key is a map update for its entity and scope. */
  lemma SaveOneIsUpdate(table: seq<Row>, e: Entity, scope: Scope, key: string, v: Value)
    requires Unique(table) && !Blocked(table, e, scope, key)
    ensures Find(SaveOne(table, e, scope, key, v).value, e, Some(scope)) == Find(table, e, Some(scope))[key := Some(v)]
  {
    if HasLive(table, e, scope, key) {
      var i :| 0 <= i < |table| && IsLive(table[i], e, scope, key);
      WriteIsUpdate(table, e, scope, key, v, i);
    } else {
      var t := SaveOne(table, e, scope, key, v).value;
      assert t[..|t| - 1] == table;
    }
  }

  /** Other entities and other scopes keep what they have. */
  lemma {:induction false} WriteElsewhere(table: seq<Row>, e: Entity, scope: Scope, key: string, v: Value, f: Entity, other: Scope)
    requires f != e || other != scope
    ensures Find(WriteAll(table, e, scope, key, v), f, Some(other)) == Find(table, f, Some(other))
  {
    if table != [] {
      var n := |table| - 1;
      WriteElsewhere(table[..n], e, scope, key, v, f, other);
      assert WriteAll(table, e, scope, key, v)[..n] == WriteAll(table[..n], e, scope, key, v);
    }
  }

  lemma SaveOneElsewhere(table: seq<Row>, e: Entity, scope: Scope, key: string, v: Value, f: Entity, other: Scope)
    requires !Blocked(table, e, scope, key) && (f != e || other != scope)
    ensures Find(SaveOne(table, e, scope, key, v).value, f, Some(other)) == Find(table, f, Some(other))
  {
    if HasLive(table, e, scope, key) {
      WriteElsewhere(table, e, scope, key, v, f, other);
    } else {
      assert SaveOne(table, e, scope, key, v).value[..|table|] == table;
    }
  }

  function Entries(entries: seq<(string, Value)>): map<string, Option<Value>> {
    if entries == [] then map[] else map[entries[0].0 := Some(entries[0].1)] + Entries(entries[1..])
  }

  ghost predicate DistinctKeys(entries: seq<(string, Value)>) {
    forall i, j :: 0 <= i < j < |entries| ==> entries[i].0 != entries[j].0
  }

  lemma UpdateThenOverride(m: map<string, Option<Value>>, key: string, x: Option<Value>, more: map<string, Option<Value>>)
    ensures m[key := x] + more == m + (map[key := x] + more)
  {
  }

  lemma {:induction false} SaveSucceeds(table: seq<Row>, e: Entity, scope: Scope, entries: seq<(string, Value)>)
    requires Unique(table) && DistinctKeys(entries)
    requires forall i :: 0 <= i < |entries| ==> !Blocked(table, e, scope, entries[i].0)
    ensures var (t, r) := SaveEach(table, e, scope, entries);
            r.Ok? && Unique(t) && Find(t, e, Some(scope)) == Find(table, e, Some(scope)) + Entries(entries)
    decreases |entries|
  {
    if entries != [] {
      var (key, v) := entries[0];
      SaveOneUnique(table, e, scope, key, v);
      SaveOneIsUpdate(table, e, scope, key, v);
      var next := SaveOne(table, e, scope, key, v).value;
      forall i | 0 <= i < |entries[1..]| ensures !Blocked(next, e, scope, entries[1..][i].0) {
        assert entries[1..][i] == entries[i + 1];
        BlockedElsewhere(table, e, scope, key, v, scope, entries[i + 1].0);
      }
      SaveSucceeds(next, e, scope, entries[1..]);
      UpdateThenOverride(Find(table, e, Some(scope)), key, Some(v), Entries(entries[1..]));
    }
  }

  lemma {:induction false} SaveStops(table: seq<Row>, e: Entity, scope: Scope, entries: seq<(string, Value)>, n: nat)
    requires Unique(table) && DistinctKeys(entries)
    requires n < |entries| && Blocked(table, e, scope, entries[n].0)
    requires forall i :: 0 <= i < n ==> !Blocked(table, e, scope, entries[i].0)
    ensures SaveEach(table, e, scope, entries) == (SaveEach(table, e, scope, entries[..n]).0, Err(UniqueViolation))
    decreases |entries|
  {
    if n > 0 {
      var (key, v) := entries[0];
      SaveOneUnique(table, e, scope, key, v);
      var next := SaveOne(table, e, scope, key, v).value;
      forall i | 0 <= i < |entries[1..]| ensures Blocked(next, e, scope, entries[1..][i].0) == Blocked(table, e, scope, entries[i + 1].0) {
        assert entries[1..][i] == entries[i + 1];
        BlockedElsewhere(table, e, scope, key, v, scope, entries[i + 1].0);
      }
      SaveStops(next, e, scope, entries[1..], n - 1);
      assert entries[..n][1..] == entries[1..][..n - 1];
    }
  }

  /** The first blocked key, if any. */
  function FirstBlocked(table: seq<Row>, e: Entity, scope: Scope, entries: seq<(string, Value)>): (n: nat)
    ensures n <= |entries| && (n < |entries| ==> Blocked(table, e, scope, entries[n].0))
    ensures forall i :: 0 <= i < n ==> !Blocked(table, e, scope, entries[i].0)
  {
    if entries == [] || Blocked(table, e, scope, entries[0].0) then 0
    else 1 + FirstBlocked(table, e, scope, entries[1..])
  }

  /** saveAttributes succeeds exactly when no key is blocked, and is then map override; else it stops at the
      first blocked key, having overridden the map with those before it. */
  lemma SaveIsOverride(table: seq<Row>, e: Entity, scope: Scope, entries: seq<(string, Value)>)
    requires Unique(table) && DistinctKeys(entries)
    ensures var (t, r) := SaveEach(table, e, scope, entries);
            && (r.Ok? <==> forall i :: 0 <= i < |entries| ==> !Blocked(table, e, scope, entries[i].0))
            && Unique(t)
            && Find(t, e, Some(scope)) == Find(table, e, Some(scope)) + Entries(entries[..FirstBlocked(table, e, scope, entries)])
  {
    var n := FirstBlocked(table, e, scope, entries);
    SaveSucceeds(table, e, scope, entries[..n]);
    if n < |entries| {
      SaveStops(table, e, scope, entries, n);
    } else {
      assert entries[..n] == entries;
    }
  }

  /** However a call of saveAttributes ends, other entities and other scopes keep what they have. */
  lemma {:induction false} SaveElsewhere(table: seq<Row>, e: Entity, scope: Scope, entries: seq<(string, Value)>, f: Entity, other: Scope)
    requires f != e || other != scope
    ensures Find(SaveEach(table, e, scope, entries).0, f, Some(other)) == Find(table, f, Some(other))
    decreases |entries|
  {
    if entries != [] && !Blocked(table, e, scope, entries[0].0) {
      var (key, v) := entries[0];
      SaveOneElsewhere(table, e, scope, key, v, f, other);
      SaveElsewhere(SaveOne(table, e, scope, key, v).value, e, scope, entries[1..], f, other);
    }
  }

  // ---- Deleting --------------------------------------------------------------------

  lemma DeleteUnique(table: seq<Row>, e: Entity, keys: set<string>, scope: Option<Scope>)
    requires Unique(table)
    ensures Unique(DeleteKeys(table, e, keys, scope))
  {
  }

  /** Soft deletion is key removal, for the entity and the scope, or for every scope if none is given. */
  lemma {:induction false} DeleteIsRemoval(table: seq<Row>, e: Entity, keys: set<string>, scope: Option<Scope>, view: Option<Scope>)
    requires scope.None? || view == scope
    ensures Find(DeleteKeys(table, e, keys, scope), e, view) == Find(table, e, view) - keys
  {
    if table != [] {
      var n := |table| - 1;
      DeleteIsRemoval(table[..n], e, keys, scope, view);
      assert DeleteKeys(table, e, keys, scope)[..n] == DeleteKeys(table[..n], e, keys, scope);
    }
  }

  /** Deleting leaves other entities alone, and other scopes if one is given. */
  lemma {:induction false} DeleteElsewhere(table: seq<Row>, e: Entity, keys: set<string>, scope: Option<Scope>, f: Entity, view: Option<Scope>)
    requires f != e || (scope.Some? && view.Some? && view != scope)
    ensures Find(DeleteKeys(table, e, keys, scope), f, view) == Find(table, f, view)
  {
    if table != [] {
      var n := |table| - 1;
      DeleteElsewhere(table[..n], e, keys, scope, f, view);
      assert DeleteKeys(table, e, keys, scope)[..n] == DeleteKeys(table[..n], e, keys, scope);
    }
  }

  /** A key that was there and is deleted cannot be saved again: its dead row still holds the index. */
  lemma DeletedCannotReturn(table: seq<Row>, e: Entity, key: string, scope: Scope, again: Scope, v: Value)
    requires Unique(table) && key in Find(table, e, Some(scope))
    ensures SaveOne(DeleteKeys(table, e, {key}, Some(scope)), e, again, key, v) == Err(UniqueViolation)
  {
    var t := DeleteKeys(table, e, {key}, Some(scope));
    FindExact(table, e, Some(scope));
    var i :| 0 <= i < |table| && Visible(table[i], e, Some(scope)) && table[i].key == key;
    assert t[i].deleted && Taken(t[i], e, key);
    forall j | 0 <= j < |t| ensures !IsLive(t[j], e, again, key) {
      assert j != i ==> table[j].entity != e || table[j].key != key;
    }
  }

  // ---- What the index is for -------------------------------------------------------

  /** The table without its unique index: the find-then-insert of one key, with nothing to refuse it. */
  function SaveUnindexed(table: seq<Row>, e: Entity, scope: Scope, key: string, v: Value): seq<Row> {
    if HasLive(table, e, scope, key) then WriteAll(table, e, scope, key, v)
    else table + [Row(e, key, scope, SetValue(EMPTY, v), false)]
  }

  datatype Op =
    | Save(entity: Entity, scope: Scope, key: string, value: Value)
    | Delete(entity: Entity, keys: set<string>, from: Option<Scope>)

  function StepUnindexed(table: seq<Row>, op: Op): seq<Row> {
    match op
    case Save(e, scope, key, v) => SaveUnindexed(table, e, scope, key, v)
    case Delete(e, keys, from) => DeleteKeys(table, e, keys, from)
  }

  function RunUnindexed(table: seq<Row>, ops: seq<Op>): seq<Row>
    decreases |ops|
  {
    if ops == [] then table else RunUnindexed(StepUnindexed(table, ops[0]), ops[1..])
  }

  /** No two live rows share entity, scope and key. */
  ghost predicate OneLivePerScope(table: seq<Row>) {
    forall i, j :: 0 <= i < j < |table| && IsLive(table[j], table[i].entity, table[i].scope, table[i].key) ==> table[i].deleted
  }

  /** No two live rows share entity and key. */
  ghost predicate OneLivePerKey(table: seq<Row>) {
    forall i, j :: 0 <= i < j < |table| && Visible(table[j], table[i].entity, None) && table[j].key == table[i].key ==>
      table[i].deleted
  }

  /** Over every run of saves and deletes the look-up before the insert is enough to keep one live row per entity,
      scope and key, index or not. */
  lemma {:induction false} LookUpKeepsOne(table: seq<Row>, ops: seq<Op>)
    requires OneLivePerScope(table)
    ensures OneLivePerScope(RunUnindexed(table, ops))
    decreases |ops|
  {
    if ops != [] {
      LookUpKeepsOne(StepUnindexed(table, ops[0]), ops[1..]);
    }
  }

  /** It keeps one live row per entity and key exactly when the key is not live in another scope only. */
  lemma KeyStaysSingle(table: seq<Row>, e: Entity, scope: Scope, key: string, v: Value)
    requires OneLivePerKey(table)
    ensures OneLivePerKey(SaveUnindexed(table, e, scope, key, v)) <==>
            HasLive(table, e, scope, key) || forall other :: !HasLive(table, e, other, key)
  {
    var t := SaveUnindexed(table, e, scope, key, v);
    if HasLive(table, e, scope, key) {
      assert forall i :: 0 <= i < |t| ==> t[i] == table[i].(columns := t[i].columns);
    } else if other :| HasLive(table, e, other, key) {
      var i :| 0 <= i < |table| && IsLive(table[i], e, other, key);
      assert t[i] == table[i] && Visible(t[|table|], t[i].entity, None) && t[|table|].key == t[i].key;
    } else {
      forall i | 0 <= i < |table| && Visible(table[i], e, None) && table[i].key == key ensures false {
        assert IsLive(table[i], e, table[i].scope, key);
        assert HasLive(table, e, table[i].scope, key);
      }
    }
  }

  /** So one key saved in two scopes has two live rows without the index; with it the second save is refused. */
  lemma IndexNeeded(e: Entity, key: string, v: Value)
    ensures !OneLivePerKey(RunUnindexed([], [Save(e, SERVER, key, v), Save(e, SHARED, key, v)]))
    ensures SaveOne(RunUnindexed([], [Save(e, SERVER, key, v)]), e, SHARED, key, v) == Err(UniqueViolation)
  {
    var first, second := Save(e, SERVER, key, v), Save(e, SHARED, key, v);
    var one := [Row(e, key, SERVER, SetValue(EMPTY, v), false)];
    assert [first, second][1..] == [second] && [second][1..] == [] && [first][1..] == [];
    assert StepUnindexed([], first) == one;
    assert RunUnindexed(one, []) == one && RunUnindexed([], [first]) == one;
    assert IsLive(one[0], e, SERVER, key) && HasLive(one, e, SERVER, key);
    KeyStaysSingle(one, e, SHARED, key, v);
    var both := StepUnindexed(one, second);
    assert RunUnindexed(both, []) == both && RunUnindexed(one, [second]) == both;
    assert RunUnindexed([], [first, second]) == both;
    assert Taken(one[0], e, key);
  }
}
