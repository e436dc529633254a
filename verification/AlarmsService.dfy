/** The alarms service: it walks over the matching rows, changes them and emits events. */
module AlarmsService {
  import opened Options
  import opened Counting
  import opened Alarms

  lemma {:induction false} OneMoreRow(js: Runtime, table: seq<Alarm>, i: nat, select: Selection, now: int)
    requires i < |table|
    ensures RowsEvents(js, table[..i + 1], select, now) == RowsEvents(js, table[..i], select, now) + RowEvents(js, table[i], select, now)
  {
    if i == 0 {
      assert table[..1] == [table[0]];
    } else {
      assert table[..i + 1][1..] == table[1..][..i] && table[..i][1..] == table[1..][..i - 1];
      OneMoreRow(js, table[1..], i - 1, select, now);
    }
  }

  lemma {:induction false} CheckedRows(js: Runtime, table: seq<Alarm>, select: Selection, now: int)
    ensures |CheckRows(js, table, select, now)| == |table|
    ensures forall i :: 0 <= i < |table| ==> CheckRows(js, table, select, now)[i] == CheckRow(js, table[i], select, now)
  {
    if table != [] {
      CheckedRows(js, table[1..], select, now);
    }
  }

  function IsAlarm(id: Id, tenant: Id): Alarm -> bool {
    (a: Alarm) => a.id == id && a.tenantId == tenant
  }

  /** The rows a bulk move on these ids changes. */
  function Movable(m: Move, tenant: Id, ids: seq<Id>): Alarm -> bool {
    (a: Alarm) => a.tenantId == tenant && a.id in ids && Eligible(m, a)
  }

  /** An alarm with this id may be moved. */
  ghost predicate CanMove(table: seq<Alarm>, m: Move, tenant: Id, id: Id) {
    exists a :: a in table && IsAlarm(id, tenant)(a) && Eligible(m, a)
  }

  function MoveRow(a: Alarm, m: Move, tenant: Id, ids: seq<Id>, now: int): Alarm {
    if Movable(m, tenant, ids)(a) then Apply(m, a, now) else a
  }

  function MoveAll(table: seq<Alarm>, m: Move, tenant: Id, ids: seq<Id>, now: int): seq<Alarm> {
    if table == [] then [] else [MoveRow(table[0], m, tenant, ids, now)] + MoveAll(table[1..], m, tenant, ids, now)
  }

  lemma {:induction false} MovedRows(table: seq<Alarm>, m: Move, tenant: Id, ids: seq<Id>, now: int)
    ensures |MoveAll(table, m, tenant, ids, now)| == |table|
    ensures forall i :: 0 <= i < |table| ==> MoveAll(table, m, tenant, ids, now)[i] == MoveRow(table[i], m, tenant, ids, now)
  {
    if table != [] {
      MovedRows(table[1..], m, tenant, ids, now);
    }
  }

  /** Moving one id more after the others. */
  lemma MoveRowOnce(a: Alarm, m: Move, tenant: Id, ids: seq<Id>, id: Id, now: int)
    ensures var b := MoveRow(a, m, tenant, ids, now);
            && b.id == a.id && b.tenantId == a.tenantId
            && MoveRow(b, m, tenant, [id], now) == MoveRow(a, m, tenant, ids + [id], now)
            && (IsAlarm(id, tenant)(b) ==> (Eligible(m, b) <==> Eligible(m, a) && id !in ids))
  {
  }

  /** The events of moving the alarm with this id, if there is one and it is eligible. */
  function OneMoveEvents(table: seq<Alarm>, m: Move, tenant: Id, id: Id, now: int): seq<Event> {
    match First(table, IsAlarm(id, tenant))
    case None => []
    case Some(a) => if Eligible(m, a) then [MoveEvent(m, a, now)] else []
  }

  /** The events of moving many: one for the first mention of each id whose alarm is eligible. */
  function MoveEvents(table: seq<Alarm>, m: Move, tenant: Id, ids: seq<Id>, now: int): seq<Event> {
    if ids == [] then [] else
    var n := |ids| - 1;
    MoveEvents(table, m, tenant, ids[..n], now)
    + if ids[n] in ids[..n] then [] else OneMoveEvents(table, m, tenant, ids[n], now)
  }

  lemma {:induction false} FirstIsAt(table: seq<Alarm>, id: Id, tenant: Id, i: nat)
    requires i <= |table| && forall j :: 0 <= j < i ==> !IsAlarm(id, tenant)(table[j])
    requires i < |table| ==> IsAlarm(id, tenant)(table[i])
    ensures First(table, IsAlarm(id, tenant)) == if i < |table| then Some(table[i]) else None
  {
    if i > 0 {
      FirstIsAt(table[1..], id, tenant, i - 1);
    }
  }

  /** After moving some ids, moving one more emits its event unless it was among them. */
  lemma {:induction false} EventsStill(before: seq<Alarm>, m: Move, tenant: Id, ids: seq<Id>, id: Id, now: int)
    ensures OneMoveEvents(MoveAll(before, m, tenant, ids, now), m, tenant, id, now)
         == if id in ids then [] else OneMoveEvents(before, m, tenant, id, now)
  {
    if before != [] {
      MoveRowOnce(before[0], m, tenant, ids, id, now);
      EventsStill(before[1..], m, tenant, ids, id, now);
    }
  }

  lemma OneMoreEvent(before: seq<Alarm>, m: Move, tenant: Id, ids: seq<Id>, i: nat, now: int)
    requires i < |ids|
    ensures MoveEvents(before, m, tenant, ids[..i + 1], now)
         == MoveEvents(before, m, tenant, ids[..i], now) + OneMoveEvents(MoveAll(before, m, tenant, ids[..i], now), m, tenant, ids[i], now)
  {
    assert ids[..i + 1][..i] == ids[..i];
    EventsStill(before, m, tenant, ids[..i], ids[i], now);
  }

  ghost predicate DistinctIds(table: seq<Alarm>) {
    forall i, j :: 0 <= i < j < |table| ==> table[i].id != table[j].id
  }

  /** One id more makes one row more movable, unless it was listed before or its row is not eligible. */
  lemma {:induction false} OneMoreId(table: seq<Alarm>, m: Move, tenant: Id, ids: seq<Id>, id: Id)
    requires DistinctIds(table)
    ensures Count(table, Movable(m, tenant, ids + [id])) == Count(table, Movable(m, tenant, ids))
          + if id !in ids && CanMove(table, m, tenant, id) then 1 else 0
  {
    if table != [] {
      OneMoreId(table[1..], m, tenant, ids, id);
      assert table == [table[0]] + table[1..];
      if table[0].id == id {
        forall a | a in table[1..] ensures a.id != id {
          var i :| 0 <= i < |table[1..]| && table[1..][i] == a;
          assert table[i + 1] == a;
        }
      }
    }
  }

  class AlarmsService {
    const js: Runtime
    var devices: map<Id, Id>
    var table: seq<Alarm>
    var events: seq<Event>

    constructor (js: Runtime, devices: map<Id, Id>, table: seq<Alarm>)
      ensures this.js == js && this.devices == devices && this.table == table && events == []
    {
      this.js, this.devices, this.table, events := js, devices, table, [];
    }

    method CheckSelected(select: Selection, now: int)
      modifies this`table, this`events
      ensures table == CheckRows(js, old(table), select, now)
      ensures events == old(events) + RowsEvents(js, old(table), select, now)
    {
      ghost var before := table;
      CheckedRows(js, before, select, now);
      var i := 0;
      while i < |table|
        invariant i <= |table| == |before|
        invariant forall j :: 0 <= j < |table| ==>
                    table[j] == if j < i then CheckRow(js, before[j], select, now) else before[j]
        invariant events == old(events) + RowsEvents(js, before[..i], select, now)
      {
        OneMoreRow(js, before, i, select, now);
        var value := select(table[i]);
        if value.Some? {
          CheckRowAt(i, value.value, now);
        }
        i := i + 1;
      }
      assert before[..|table|] == before;
    }

    method CheckRowAt(i: nat, v: Value, now: int)
      requires i < |table|
      modifies this`table, this`events
      ensures table == old(table)[i := CheckAlarm(js, old(table)[i], v, now)]
      ensures events == old(events) + CheckEvents(js, old(table)[i], v, now)
    {
      var alarm := table[i];
      if EvaluateCondition(js, alarm.rule, v) {
        TriggerAlarm(i, v, now);
      } else if alarm.autoClear && alarm.status == ACTIVE {
        table := table[i := ClearAlarm(alarm, now)];
        events := events + [Cleared(ClearAlarm(alarm, now))];
      }
    }

    method TriggerAlarm(i: nat, v: Value, now: int)
      requires i < |table|
      modifies this`table, this`events
      ensures table == old(table)[i := Trigger(old(table)[i], v, now)]
      ensures events == old(events) + if old(table)[i].status == ACTIVE && old(table)[i].triggerCount > 0 then []
                                      else [Triggered(Trigger(old(table)[i], v, now))]
    {
      var wasAlreadyActive := table[i].status == ACTIVE && table[i].triggerCount > 0;
      table := table[i := Trigger(table[i], v, now)];
      if !wasAlreadyActive {
        events := events + [Triggered(table[i])];
      }
    }

    method CheckAlarmConditions(device: Id, key: string, v: Value, now: int)
      modifies this`table, this`events
      ensures device !in devices ==> table == old(table) && events == old(events)
      ensures device in devices ==>
                && table == CheckRows(js, old(table), ForKey(device, devices[device], key, v), now)
                && events == old(events) + RowsEvents(js, old(table), ForKey(device, devices[device], key, v), now)
    {
      if device in devices {
        CheckSelected(ForKey(device, devices[device], key, v), now);
      }
    }

    method CheckAlarmConditionsBatch(device: Id, data: map<string, Value>, keys: seq<string>, now: int)
      modifies this`table, this`events
      ensures device !in devices ==> table == old(table) && events == old(events)
      ensures device in devices ==>
                && table == CheckRows(js, old(table), ForKeys(device, devices[device], data, KeysOf(keys)), now)
                && events == old(events) + RowsEvents(js, old(table), ForKeys(device, devices[device], data, KeysOf(keys)), now)
    {
      if device in devices {
        CheckSelected(ForKeys(device, devices[device], data, KeysOf(keys)), now);
      }
    }

    /** acknowledge or clear: refused unless the alarm is found and eligible. */
    method MoveOne(m: Move, id: Id, tenant: Id, now: int) returns (r: Result<()>)
      requires DistinctIds(table)
      modifies this`table, this`events
      ensures r.Ok? <==> CanMove(old(table), m, tenant, id)
      ensures r == Err(NotFound) <==> forall a :: a in old(table) ==> !IsAlarm(id, tenant)(a)
      ensures r.Ok? || r.error in {NotFound, BadRequest}
      ensures table == MoveAll(old(table), m, tenant, [id], now)
      ensures events == old(events) + OneMoveEvents(old(table), m, tenant, id, now)
    {
      MovedRows(table, m, tenant, [id], now);
      var i := 0;
      while i < |table| && !IsAlarm(id, tenant)(table[i])
        invariant i <= |table|
        invariant forall j :: 0 <= j < i ==> !IsAlarm(id, tenant)(table[j])
      {
        i := i + 1;
      }
      FirstIsAt(table, id, tenant, i);
      if i == |table| {
        return Err(NotFound);
      }
      assert table[i] in table;
      if !Eligible(m, table[i]) {
        return Err(BadRequest);
      }
      events := events + [MoveEvent(m, table[i], now)];
      table := table[i := Apply(m, table[i], now)];
      r := Ok(());
    }

    /** bulkAcknowledge and bulkClear: every id counts once as a success or a failure, and the successes are as many
        as the rows changed, however often an id is listed. */
    method Bulk(m: Move, tenant: Id, ids: seq<Id>, now: int) returns (success: nat, failed: nat)
      requires DistinctIds(table)
      modifies this`table, this`events
      ensures success + failed == |ids|
      ensures success == Count(old(table), Movable(m, tenant, ids))
      ensures table == MoveAll(old(table), m, tenant, ids, now)
      ensures events == old(events) + MoveEvents(old(table), m, tenant, ids, now)
    {
      ghost var before := table;
      ghost var emitted: seq<Event> := [];
      BulkStarts(before, m, tenant, ids, now);
      success, failed := 0, 0;
      var i := 0;
      while i < |ids|
        invariant i <= |ids| && success + failed == i
        invariant events == old(events) + emitted
        invariant Progress(before, m, tenant, ids, i, now, table, emitted, success)
      {
        BulkStep(before, m, tenant, ids, i, now, table, emitted, success);
        emitted := emitted + OneMoveEvents(table, m, tenant, ids[i], now);
        var r := MoveOne(m, ids[i], tenant, now);
        if r.Ok? {
          success := success + 1;
        } else {
          failed := failed + 1;
        }
        i := i + 1;
      }
      BulkEnds(before, m, tenant, ids, now, table, emitted, success);
    }
  }

  lemma NoneMovable(table: seq<Alarm>, m: Move, tenant: Id, now: int)
    ensures Count(table, Movable(m, tenant, [])) == 0
    ensures MoveAll(table, m, tenant, [], now) == table
  {
    CountPositive(table, Movable(m, tenant, []));
    MovedRows(table, m, tenant, [], now);
  }

  /** A bulk move emits one event for each row it changes. */
  lemma {:induction false} EventPerRow(table: seq<Alarm>, m: Move, tenant: Id, ids: seq<Id>, now: int)
    requires DistinctIds(table)
    ensures |MoveEvents(table, m, tenant, ids, now)| == Count(table, Movable(m, tenant, ids))
    decreases |ids|
  {
    if ids == [] {
      NoneMovable(table, m, tenant, now);
    } else {
      var n := |ids| - 1;
      var id := ids[n];
      assert ids == ids[..n] + [id];
      EventPerRow(table, m, tenant, ids[..n], now);
      OneMoreId(table, m, tenant, ids[..n], id);
      FirstFound(table, IsAlarm(id, tenant));
      CountPositive(table, IsAlarm(id, tenant));
    }
  }

  lemma MovedTwice(before: seq<Alarm>, m: Move, tenant: Id, ids: seq<Id>, id: Id, now: int)
    ensures var table := MoveAll(before, m, tenant, ids, now);
            && |table| == |before|
            && MoveAll(table, m, tenant, [id], now) == MoveAll(before, m, tenant, ids + [id], now)
            && (forall i :: 0 <= i < |before| ==> table[i].id == before[i].id)
            && (forall i :: 0 <= i < |before| ==>
                  (IsAlarm(id, tenant)(table[i]) && Eligible(m, table[i]) <==>
                   IsAlarm(id, tenant)(before[i]) && Eligible(m, before[i]) && id !in ids))
  {
    var table := MoveAll(before, m, tenant, ids, now);
    MovedRows(before, m, tenant, ids, now);
    MovedRows(before, m, tenant, ids + [id], now);
    MovedRows(table, m, tenant, [id], now);
    forall i | 0 <= i < |before|
      ensures table[i].id == before[i].id
      ensures MoveAll(table, m, tenant, [id], now)[i] == MoveAll(before, m, tenant, ids + [id], now)[i]
      ensures IsAlarm(id, tenant)(table[i]) && Eligible(m, table[i]) <==>
              IsAlarm(id, tenant)(before[i]) && Eligible(m, before[i]) && id !in ids
    {
      MoveRowOnce(before[i], m, tenant, ids, id, now);
    }
  }

  lemma EligibleBefore(before: seq<Alarm>, m: Move, tenant: Id, ids: seq<Id>, id: Id, now: int)
    requires CanMove(MoveAll(before, m, tenant, ids, now), m, tenant, id)
    ensures id !in ids && CanMove(before, m, tenant, id)
  {
    var table := MoveAll(before, m, tenant, ids, now);
    MovedTwice(before, m, tenant, ids, id, now);
    var a :| a in table && IsAlarm(id, tenant)(a) && Eligible(m, a);
    var i :| 0 <= i < |table| && table[i] == a;
    assert before[i] in before;
  }

  lemma EligibleAfter(before: seq<Alarm>, m: Move, tenant: Id, ids: seq<Id>, id: Id, now: int)
    requires id !in ids && CanMove(before, m, tenant, id)
    ensures CanMove(MoveAll(before, m, tenant, ids, now), m, tenant, id)
  {
    var table := MoveAll(before, m, tenant, ids, now);
    MovedTwice(before, m, tenant, ids, id, now);
    var a :| a in before && IsAlarm(id, tenant)(a) && Eligible(m, a);
    var i :| 0 <= i < |before| && before[i] == a;
    assert table[i] in table;
  }

  /** After moving some ids, one more is still eligible exactly when it was and is not among them. */
  lemma StillEligible(before: seq<Alarm>, m: Move, tenant: Id, ids: seq<Id>, id: Id, now: int)
    ensures CanMove(MoveAll(before, m, tenant, ids, now), m, tenant, id) <==> id !in ids && CanMove(before, m, tenant, id)
  {
    if CanMove(MoveAll(before, m, tenant, ids, now), m, tenant, id) {
      EligibleBefore(before, m, tenant, ids, id, now);
    } else if id !in ids && CanMove(before, m, tenant, id) {
      EligibleAfter(before, m, tenant, ids, id, now);
    }
  }

  /** How far a bulk move has come after the first i ids. */
  ghost predicate Progress(before: seq<Alarm>, m: Move, tenant: Id, ids: seq<Id>, i: nat, now: int,
                           table: seq<Alarm>, emitted: seq<Event>, success: nat)
    requires i <= |ids|
  {
    && DistinctIds(table)
    && table == MoveAll(before, m, tenant, ids[..i], now)
    && emitted == MoveEvents(before, m, tenant, ids[..i], now)
    && success == Count(before, Movable(m, tenant, ids[..i]))
  }

  lemma BulkStarts(before: seq<Alarm>, m: Move, tenant: Id, ids: seq<Id>, now: int)
    requires DistinctIds(before)
    ensures Progress(before, m, tenant, ids, 0, now, before, [], 0)
  {
    NoneMovable(before, m, tenant, now);
    assert ids[..0] == [];
  }

  lemma BulkEnds(before: seq<Alarm>, m: Move, tenant: Id, ids: seq<Id>, now: int,
                 table: seq<Alarm>, emitted: seq<Event>, success: nat)
    requires Progress(before, m, tenant, ids, |ids|, now, table, emitted, success)
    ensures table == MoveAll(before, m, tenant, ids, now) && emitted == MoveEvents(before, m, tenant, ids, now)
    ensures success == Count(before, Movable(m, tenant, ids))
  {
    assert ids[..|ids|] == ids;
  }

  lemma BulkStep(before: seq<Alarm>, m: Move, tenant: Id, ids: seq<Id>, i: nat, now: int,
                 table: seq<Alarm>, emitted: seq<Event>, success: nat)
    requires DistinctIds(before) && i < |ids| && Progress(before, m, tenant, ids, i, now, table, emitted, success)
    ensures Progress(before, m, tenant, ids, i + 1, now, MoveAll(table, m, tenant, [ids[i]], now),
                     emitted + OneMoveEvents(table, m, tenant, ids[i], now),
                     success + if CanMove(table, m, tenant, ids[i]) then 1 else 0)
  {
    assert ids[..i + 1] == ids[..i] + [ids[i]];
    OneMoreId(before, m, tenant, ids[..i], ids[i]);
    MovedTwice(before, m, tenant, ids[..i], ids[i], now);
    StillEligible(before, m, tenant, ids[..i], ids[i], now);
    OneMoreEvent(before, m, tenant, ids, i, now);
    MovedTwice(before, m, tenant, ids[..i + 1], ids[i], now);
  }
}
