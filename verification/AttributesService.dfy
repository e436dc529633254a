/** The attributes service: rows upserted, read and soft-deleted in loops. */
module AttributesService {
  import opened Options
  import opened Attributes

  function KeySet(keys: seq<string>): set<string> {
    set k | k in keys
  }

  class AttributesService {
    var table: seq<Row>

    constructor ()
      ensures table == [] && Unique(table)
    {
      table := [];
    }

    /** The live row of a key, or the length of the table. */
    method FindRow(e: Entity, scope: Scope, key: string) returns (i: nat)
      ensures i <= |table|
      ensures i < |table| ==> IsLive(table[i], e, scope, key)
      ensures i == |table| ==> !HasLive(table, e, scope, key)
    {
      i := 0;
      while i < |table| && !IsLive(table[i], e, scope, key)
        invariant i <= |table|
        invariant forall j :: 0 <= j < i ==> !IsLive(table[j], e, scope, key)
      {
        i := i + 1;
      }
    }

    method SaveAttribute(e: Entity, scope: Scope, key: string, v: Value) returns (r: Result<()>)
      requires Unique(table)
      modifies this`table
      ensures match SaveOne(old(table), e, scope, key, v)
              case Ok(t) => r == Ok(()) && table == t && Unique(table)
              case Err(x) => r == Err(x) && table == old(table)
    {
      var i := FindRow(e, scope, key);
      if !Blocked(table, e, scope, key) {
        SaveOneUnique(table, e, scope, key, v);
      }
      if i < |table| {
        assert HasLive(table, e, scope, key);
        var written := table[i := table[i].(columns := SetValue(table[i].columns, v))];
        assert written == WriteAll(table, e, scope, key, v);
        table := written;
      } else if HasKey(table, e, key) {
        return Err(UniqueViolation);
      } else {
        table := table + [Row(e, key, scope, SetValue(EMPTY, v), false)];
      }
      r := Ok(());
    }

    /** `found` is whether the device or asset exists in the tenant. */
    method SaveAttributes(found: bool, e: Entity, scope: Scope, entries: seq<(string, Value)>) returns (r: Result<()>)
      requires Unique(table)
      modifies this`table
      ensures !found ==> r == Err(NotFound) && table == old(table)
      ensures found ==> (table, r) == SaveEach(old(table), e, scope, entries)
      ensures Unique(table)
    {
      if !found {
        return Err(NotFound);
      }
      var i := 0;
      while i < |entries|
        invariant i <= |entries| && Unique(table)
        invariant SaveEach(old(table), e, scope, entries) == SaveEach(table, e, scope, entries[i..])
      {
        assert entries[i..][0] == entries[i] && entries[i..][1..] == entries[i + 1..];
        r := SaveAttribute(e, scope, entries[i].0, entries[i].1);
        if r.Err? {
          return;
        }
        i := i + 1;
      }
      r := Ok(());
    }

    method FindByEntity(e: Entity, scope: Option<Scope>) returns (result: map<string, Option<Value>>)
      ensures result == Find(table, e, scope)
    {
      result := map[];
      var i := 0;
      while i < |table|
        invariant i <= |table|
        invariant result == Find(table[..i], e, scope)
      {
        assert table[..i + 1][..i] == table[..i];
        if Visible(table[i], e, scope) {
          result := result[table[i].key := GetValue(table[i].columns)];
        }
        i := i + 1;
      }
      assert table[..|table|] == table;
    }

    method DeleteAttributes(e: Entity, keys: seq<string>, scope: Option<Scope>)
      requires Unique(table)
      modifies this`table
      ensures Unique(table)
      ensures table == DeleteKeys(old(table), e, KeySet(keys), scope)
      ensures Find(table, e, scope) == Find(old(table), e, scope) - KeySet(keys)
    {
      DeleteUnique(table, e, KeySet(keys), scope);
      DeleteIsRemoval(table, e, KeySet(keys), scope, scope);
      table := DeleteKeys(table, e, KeySet(keys), scope);
    }
  }
}
