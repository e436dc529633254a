/** Alarm rules: evaluating a telemetry value, key by key or in one batch. */
module Alarms {
  import opened Options
  import opened Counting

  // ---- JavaScript values -----------------------------------------------------------

  datatype Value = Undefined | Null | Flag(flag: bool) | Number(number: real) | Text(text: string)

  /** The conversions of the JavaScript runtime: a text read as a number (None is NaN), a number printed, and
      lower case. */
  datatype Runtime = Runtime(numberOf: string -> Option<real>, textOf: real -> string, lower: string -> string)

  function ToNumber(js: Runtime, v: Value): Option<real> {
    match v
    case Undefined => None
    case Null => Some(0.0)
    case Flag(b) => Some(if b then 1.0 else 0.0)
    case Number(x) => Some(x)
    case Text(t) => js.numberOf(t)
  }

  function ToText(js: Runtime, v: Value): string {
    match v
    case Undefined => "undefined"
    case Null => "null"
    case Flag(b) => if b then "true" else "false"
    case Number(x) => js.textOf(x)
    case Text(t) => t
  }

  predicate TextLess(a: string, b: string) {
    b != [] && (a == [] || a[0] < b[0] || (a[0] == b[0] && TextLess(a[1..], b[1..])))
  }

  /** a < b: texts by character, anything else as numbers, and false with NaN. */
  predicate Less(js: Runtime, a: Value, b: Value) {
    if a.Text? && b.Text? then TextLess(a.text, b.text)
    else
      var x, y := ToNumber(js, a), ToNumber(js, b);
      x.Some? && y.Some? && x.value < y.value
  }

  predicate AtMost(js: Runtime, a: Value, b: Value) {
    if a.Text? && b.Text? then !TextLess(b.text, a.text)
    else
      var x, y := ToNumber(js, a), ToNumber(js, b);
      x.Some? && y.Some? && x.value <= y.value
  }

  predicate Includes(s: string, part: string) {
    part <= s || (s != [] && Includes(s[1..], part))
  }

  // ---- Rules -----------------------------------------------------------------------

  datatype Condition =
    | GREATER_THAN | LESS_THAN | EQUAL | NOT_EQUAL | GREATER_THAN_OR_EQUAL | LESS_THAN_OR_EQUAL
    | BETWEEN | OUTSIDE | CONTAINS | NOT_CONTAINS | EXISTS | UNKNOWN

  datatype Rule = Rule(telemetryKey: string, condition: Condition, value: Value, value2: Value)

  predicate EvaluateCondition(js: Runtime, rule: Rule, v: Value) {
    match rule.condition
    case GREATER_THAN => Less(js, rule.value, v)
    case LESS_THAN => Less(js, v, rule.value)
    case EQUAL => ToText(js, v) == ToText(js, rule.value)
    case NOT_EQUAL => ToText(js, v) != ToText(js, rule.value)
    case GREATER_THAN_OR_EQUAL => AtMost(js, rule.value, v)
    case LESS_THAN_OR_EQUAL => AtMost(js, v, rule.value)
    case BETWEEN => AtMost(js, rule.value, v) && AtMost(js, v, rule.value2)
    case OUTSIDE => Less(js, v, rule.value) || Less(js, rule.value2, v)
    case CONTAINS => Includes(js.lower(ToText(js, v)), js.lower(ToText(js, rule.value)))
    case NOT_CONTAINS => !Includes(js.lower(ToText(js, v)), js.lower(ToText(js, rule.value)))
    case EXISTS => v != Undefined && v != Null
    case UNKNOWN => false
  }

  /** Two texts, or two values that are numbers when converted. */
  predicate Comparable(js: Runtime, a: Value, b: Value) {
    (a.Text? && b.Text?) || (ToNumber(js, a).Some? && ToNumber(js, b).Some?)
  }

  predicate Holds(js: Runtime, rule: Rule, condition: Condition, v: Value) {
    EvaluateCondition(js, rule.(condition := condition), v)
  }

  /** Opposite conditions are never both true; with a value that is not comparable neither ordering holds. */
  lemma ConditionsComplement(js: Runtime, rule: Rule, v: Value)
    ensures Holds(js, rule, GREATER_THAN, v) <==> Comparable(js, v, rule.value) && !Holds(js, rule, LESS_THAN_OR_EQUAL, v)
    ensures Holds(js, rule, LESS_THAN, v) <==> Comparable(js, v, rule.value) && !Holds(js, rule, GREATER_THAN_OR_EQUAL, v)
    ensures !(Holds(js, rule, BETWEEN, v) && Holds(js, rule, OUTSIDE, v))
    ensures Comparable(js, v, rule.value) && Comparable(js, v, rule.value2) ==>
              Holds(js, rule, BETWEEN, v) || Holds(js, rule, OUTSIDE, v)
    ensures Holds(js, rule, NOT_EQUAL, v) <==> !Holds(js, rule, EQUAL, v)
    ensures Holds(js, rule, NOT_CONTAINS, v) <==> !Holds(js, rule, CONTAINS, v)
  {
  }

  // ---- One alarm -------------------------------------------------------------------

  datatype Status = ACTIVE | INACTIVE | ACKNOWLEDGED | CLEARED | RESOLVED

  datatype Alarm = Alarm(id: Id, tenantId: Id, deviceId: Option<Id>, isEnabled: bool, autoClear: bool, rule: Rule,
                         status: Status, currentValue: Option<real>, triggeredAt: Option<int>, lastTriggeredAt: Option<int>,
                         acknowledgedBy: Option<Id>, clearedAt: Option<int>, triggerCount: int)

  datatype Event = Triggered(alarm: Alarm) | Acknowledged(alarm: Alarm, user: Id) | Cleared(alarm: Alarm)

  function Trigger(a: Alarm, v: Value, now: int): Alarm {
    a.(status := ACTIVE, currentValue := if v.Number? then Some(v.number) else None,
       triggeredAt := if a.triggeredAt.Some? then a.triggeredAt else Some(now),
       lastTriggeredAt := Some(now), triggerCount := a.triggerCount + 1)
  }

  function ClearAlarm(a: Alarm, now: int): Alarm {
    if a.status != RESOLVED then a.(status := CLEARED, clearedAt := Some(now)) else a
  }

  function CheckAlarm(js: Runtime, a: Alarm, v: Value, now: int): Alarm {
    if EvaluateCondition(js, a.rule, v) then Trigger(a, v, now)
    else if a.autoClear && a.status == ACTIVE then ClearAlarm(a, now)
    else a
  }

  function CheckEvents(js: Runtime, a: Alarm, v: Value, now: int): seq<Event> {
    if EvaluateCondition(js, a.rule, v) then
      if a.status == ACTIVE && a.triggerCount > 0 then [] else [Triggered(Trigger(a, v, now))]
    else if a.autoClear && a.status == ACTIVE then [Cleared(ClearAlarm(a, now))]
    else []
  }

  // ---- Many alarms -----------------------------------------------------------------

  /** The value an alarm is to be checked with, if any. */
  type Selection = Alarm -> Option<Value>

  predicate Listens(a: Alarm, device: Id, tenant: Id) {
    a.deviceId == Some(device) && a.tenantId == tenant && a.isEnabled
  }

  /** checkAlarmConditions: the alarms on one telemetry key. */
  function ForKey(device: Id, tenant: Id, key: string, v: Value): Selection {
    (a: Alarm) => if Listens(a, device, tenant) && a.rule.telemetryKey == key then Some(v) else None
  }

  /** checkAlarmConditionsBatch: the alarms on any of the keys, where the data has a value. */
  function ForKeys(device: Id, tenant: Id, data: map<string, Value>, keys: set<string>): Selection {
    (a: Alarm) =>
      if Listens(a, device, tenant) && a.rule.telemetryKey in keys && a.rule.telemetryKey in data
         && data[a.rule.telemetryKey] != Undefined
      then Some(data[a.rule.telemetryKey]) else None
  }

  function CheckRow(js: Runtime, a: Alarm, select: Selection, now: int): Alarm {
    match select(a)
    case None => a
    case Some(v) => CheckAlarm(js, a, v, now)
  }

  function CheckRows(js: Runtime, table: seq<Alarm>, select: Selection, now: int): seq<Alarm> {
    if table == [] then [] else [CheckRow(js, table[0], select, now)] + CheckRows(js, table[1..], select, now)
  }

  function RowEvents(js: Runtime, a: Alarm, select: Selection, now: int): seq<Event> {
    match select(a)
    case None => []
    case Some(v) => CheckEvents(js, a, v, now)
  }

  function RowsEvents(js: Runtime, table: seq<Alarm>, select: Selection, now: int): seq<Event> {
    if table == [] then [] else RowEvents(js, table[0], select, now) + RowsEvents(js, table[1..], select, now)
  }

  function KeysOf(order: seq<string>): set<string> {
    set k | k in order
  }

  /** One checkAlarmConditions call per key, in the given order. */
  function CheckEach(js: Runtime, table: seq<Alarm>, device: Id, tenant: Id, data: map<string, Value>, order: seq<string>, now: int)
    : seq<Alarm>
    requires forall k :: k in order ==> k in data
    decreases |order|
  {
    if order == [] then table
    else CheckEach(js, CheckRows(js, table, ForKey(device, tenant, order[0], data[order[0]]), now), device, tenant, data, order[1..], now)
  }

  function EachEvents(js: Runtime, table: seq<Alarm>, device: Id, tenant: Id, data: map<string, Value>, order: seq<string>, now: int)
    : seq<Event>
    requires forall k :: k in order ==> k in data
    decreases |order|
  {
    if order == [] then [] else
    RowsEvents(js, table, ForKey(device, tenant, order[0], data[order[0]]), now)
    + EachEvents(js, CheckRows(js, table, ForKey(device, tenant, order[0], data[order[0]]), now), device, tenant, data, order[1..], now)
  }

  // ---- The batch is the loop -------------------------------------------------------

  /** For each alarm `all` selects what `first` or `rest` does, not both, and being checked
      does not change what `rest` selects. */
  ghost predicate Combines(js: Runtime, a: Alarm, first: Selection, rest: Selection, all: Selection, now: int) {
    && rest(CheckRow(js, a, first, now)) == rest(a)
    && (first(a).Some? ==> rest(a).None? && all(a) == first(a))
    && (first(a).None? ==> all(a) == rest(a))
  }

  lemma {:induction false} RowsInTurn(js: Runtime, table: seq<Alarm>, first: Selection, rest: Selection, all: Selection, now: int)
    requires forall a :: a in table ==> Combines(js, a, first, rest, all, now)
    ensures CheckRows(js, CheckRows(js, table, first, now), rest, now) == CheckRows(js, table, all, now)
  {
    if table != [] {
      assert Combines(js, table[0], first, rest, all, now);
      RowsInTurn(js, table[1..], first, rest, all, now);
    }
  }

  lemma EventsOfOne(js: Runtime, a: Alarm, first: Selection, rest: Selection, all: Selection, now: int)
    requires Combines(js, a, first, rest, all, now)
    ensures RowEvents(js, a, first, now) + RowEvents(js, CheckRow(js, a, first, now), rest, now) == RowEvents(js, a, all, now)
  {
  }

  lemma {:induction false} EventsInTurn(js: Runtime, table: seq<Alarm>, first: Selection, rest: Selection, all: Selection, now: int)
    requires forall a :: a in table ==> Combines(js, a, first, rest, all, now)
    ensures multiset(RowsEvents(js, table, first, now)) + multiset(RowsEvents(js, CheckRows(js, table, first, now), rest, now))
         == multiset(RowsEvents(js, table, all, now))
  {
    if table != [] {
      EventsOfOne(js, table[0], first, rest, all, now);
      EventsInTurn(js, table[1..], first, rest, all, now);
    }
  }

  lemma KeyCombines(js: Runtime, a: Alarm, device: Id, tenant: Id, data: map<string, Value>, key: string, keys: set<string>, now: int)
    requires key !in keys && key in data && data[key] != Undefined
    ensures Combines(js, a, ForKey(device, tenant, key, data[key]), ForKeys(device, tenant, data, keys),
                     ForKeys(device, tenant, data, keys + {key}), now)
  {
    var checked := CheckRow(js, a, ForKey(device, tenant, key, data[key]), now);
    assert checked.rule == a.rule && checked.deviceId == a.deviceId && checked.tenantId == a.tenantId
        && checked.isEnabled == a.isEnabled;
  }

  lemma {:induction false} NoKeys(js: Runtime, table: seq<Alarm>, device: Id, tenant: Id, data: map<string, Value>, now: int)
    ensures CheckRows(js, table, ForKeys(device, tenant, data, {}), now) == table
    ensures RowsEvents(js, table, ForKeys(device, tenant, data, {}), now) == []
  {
    if table != [] {
      NoKeys(js, table[1..], device, tenant, data, now);
    }
  }

  /** For distinct keys whose values are all present, the batch ends in the table that one call per key ends in,
      in any order, and emits the same events. */
  lemma {:induction false} BatchIsLoop(js: Runtime, table: seq<Alarm>, device: Id, tenant: Id, data: map<string, Value>,
                                       order: seq<string>, now: int)
    requires forall i, j :: 0 <= i < j < |order| ==> order[i] != order[j]
    requires forall k :: k in order ==> k in data && data[k] != Undefined
    ensures var batch := ForKeys(device, tenant, data, KeysOf(order));
            && CheckRows(js, table, batch, now) == CheckEach(js, table, device, tenant, data, order, now)
            && multiset(RowsEvents(js, table, batch, now)) == multiset(EachEvents(js, table, device, tenant, data, order, now))
    decreases |order|
  {
    var keys := KeysOf(order);
    if order == [] {
      assert keys == {};
      NoKeys(js, table, device, tenant, data, now);
    } else {
      var others := KeysOf(order[1..]);
      assert keys == others + {order[0]};
      forall a | a in table {
        KeyCombines(js, a, device, tenant, data, order[0], others, now);
      }
      var first, rest := ForKey(device, tenant, order[0], data[order[0]]), ForKeys(device, tenant, data, others);
      RowsInTurn(js, table, first, rest, ForKeys(device, tenant, data, keys), now);
      EventsInTurn(js, table, first, rest, ForKeys(device, tenant, data, keys), now);
      BatchIsLoop(js, CheckRows(js, table, ForKey(device, tenant, order[0], data[order[0]]), now), device, tenant, data, order[1..], now);
    }
  }

  /** Both conditions are needed: a key listed twice is counted twice by the loop, and a missing value is
      checked by the loop but skipped by the batch. */
  lemma ConditionsNeeded(js: Runtime)
    ensures var a := Alarm(1, 1, Some(1), true, true, Rule("t", EXISTS, Null, Null), INACTIVE, None, None, None, None, None, 0);
            var data := map["t" := Number(1.0)];
            CheckRows(js, [a], ForKeys(1, 1, data, {"t"}), 0) != CheckEach(js, [a], 1, 1, data, ["t", "t"], 0)
    ensures var a := Alarm(1, 1, Some(1), true, true, Rule("t", EQUAL, Text("undefined"), Null), INACTIVE, None, None, None, None, None, 0);
            var data := map["t" := Undefined];
            CheckRows(js, [a], ForKeys(1, 1, data, {"t"}), 0) != CheckEach(js, [a], 1, 1, data, ["t"], 0)
  {
    var data := map["t" := Number(1.0)];
    var a := Alarm(1, 1, Some(1), true, true, Rule("t", EXISTS, Null, Null), INACTIVE, None, None, None, None, None, 0);
    var once := CheckRows(js, [a], ForKey(1, 1, "t", data["t"]), 0);
    var twice := CheckRows(js, once, ForKey(1, 1, "t", data["t"]), 0);
    assert once[0].triggerCount == 1 && twice[0].triggerCount == 2;
    assert ["t", "t"][1..] == ["t"] && ["t"][1..] == [];
    assert CheckEach(js, once, 1, 1, data, ["t"], 0) == twice;
    assert CheckEach(js, [a], 1, 1, data, ["t", "t"], 0) == twice;
    assert CheckRows(js, [a], ForKeys(1, 1, data, {"t"}), 0)[0].triggerCount == 1;

    var gone := map["t" := Undefined];
    var b := a.(rule := Rule("t", EQUAL, Text("undefined"), Null));
    var checked := CheckRows(js, [b], ForKey(1, 1, "t", gone["t"]), 0);
    assert checked[0].triggerCount == 1;
    assert CheckEach(js, [b], 1, 1, gone, ["t"], 0) == checked;
    assert CheckRows(js, [b], ForKeys(1, 1, gone, {"t"}), 0)[0].triggerCount == 0;
  }

  // ---- The life of one alarm -------------------------------------------------------

  /** What a user may do: acknowledge an active alarm, or clear an active or acknowledged one. */
  datatype Move = Acknowledge(user: Id) | Clear

  predicate Eligible(m: Move, a: Alarm) {
    a.status == ACTIVE || (m.Clear? && a.status == ACKNOWLEDGED)
  }

  function Apply(m: Move, a: Alarm, now: int): Alarm {
    match m
    case Acknowledge(user) => a.(status := ACKNOWLEDGED, acknowledgedBy := Some(user))
    case Clear => ClearAlarm(a, now)
  }

  function MoveEvent(m: Move, a: Alarm, now: int): Event {
    match m
    case Acknowledge(user) => Acknowledged(Apply(m, a, now), user)
    case Clear => Cleared(Apply(m, a, now))
  }

  datatype Op = Check(value: Value) | Act(move: Move) | Resolve

  function NextAlarm(js: Runtime, a: Alarm, op: Op, now: int): Alarm {
    match op
    case Check(v) => CheckAlarm(js, a, v, now)
    case Act(m) => if Eligible(m, a) then Apply(m, a, now) else a
    case Resolve => a.(status := RESOLVED)
  }

  function AlarmAfter(js: Runtime, a: Alarm, ops: seq<Op>, now: int): Alarm
    decreases |ops|
  {
    if ops == [] then a else AlarmAfter(js, NextAlarm(js, a, ops[0], now), ops[1..], now)
  }

  /** How many 'alarm.triggered' events a run emits. */
  function Triggers(js: Runtime, a: Alarm, ops: seq<Op>, now: int): nat
    decreases |ops|
  {
    if ops == [] then 0 else
    (if ops[0].Check? && CheckEvents(js, a, ops[0].value, now) != [] && CheckEvents(js, a, ops[0].value, now)[0].Triggered? then 1 else 0)
    + Triggers(js, NextAlarm(js, a, ops[0], now), ops[1..], now)
  }

  /** How often the alarm stops being active. */
  function Departures(js: Runtime, a: Alarm, ops: seq<Op>, now: int): nat
    decreases |ops|
  {
    if ops == [] then 0 else
    (if a.status == ACTIVE && NextAlarm(js, a, ops[0], now).status != ACTIVE then 1 else 0)
    + Departures(js, NextAlarm(js, a, ops[0], now), ops[1..], now)
  }

  /** Every 'alarm.triggered' but the one of a still active alarm is matched by one departure from ACTIVE. */
  lemma {:induction false} TriggersAlternate(js: Runtime, a: Alarm, ops: seq<Op>, now: int)
    requires a.status == ACTIVE ==> a.triggerCount > 0
    requires a.triggerCount >= 0
    ensures Triggers(js, a, ops, now) + (if a.status == ACTIVE then 1 else 0)
         == Departures(js, a, ops, now) + (if AlarmAfter(js, a, ops, now).status == ACTIVE then 1 else 0)
    decreases |ops|
  {
    if ops != [] {
      TriggersAlternate(js, NextAlarm(js, a, ops[0], now), ops[1..], now);
    }
  }
}
