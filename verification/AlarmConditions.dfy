/** What each alarm condition decides in terms of the values, and what a check or a move leaves in the table. */
module AlarmConditions {
  import opened Options
  import opened Counting
  import opened Alarms
  import opened AlarmsService

  // ---- Numbers and texts -----------------------------------------------------------

  /** Numbers are compared as numbers. */
  lemma NumbersJudged(js: Runtime, rule: Rule, lo: real, hi: real, x: real)
    requires rule.value == Number(lo) && rule.value2 == Number(hi)
    ensures var holds := EvaluateCondition(js, rule, Number(x));
            && (rule.condition == GREATER_THAN ==> (holds <==> lo < x))
            && (rule.condition == LESS_THAN ==> (holds <==> x < lo))
            && (rule.condition == GREATER_THAN_OR_EQUAL ==> (holds <==> lo <= x))
            && (rule.condition == LESS_THAN_OR_EQUAL ==> (holds <==> x <= lo))
            && (rule.condition == BETWEEN ==> (holds <==> lo <= x <= hi))
            && (rule.condition == OUTSIDE ==> (holds <==> x < lo || hi < x))
  {
  }

  /** a stops before b does, or has the smaller character, where they first differ. */
  ghost predicate Before(a: string, b: string) {
    exists i: nat :: i <= |a| && i < |b| && a[..i] == b[..i] && (i == |a| || a[i] < b[i])
  }

  lemma {:induction false} BeforeExact(a: string, b: string)
    ensures TextLess(a, b) <==> Before(a, b)
  {
    if a != [] && b != [] && a[0] == b[0] {
      BeforeExact(a[1..], b[1..]);
      if i: nat :| i <= |a| && i < |b| && a[..i] == b[..i] && (i == |a| || a[i] < b[i]) {
        BeforeTail(a, b, i);
      }
      if i: nat :| i <= |a[1..]| && i < |b[1..]| && a[1..][..i] == b[1..][..i] && (i == |a[1..]| || a[1..][i] < b[1..][i]) {
        assert a[..i + 1] == [a[0]] + a[1..][..i] && b[..i + 1] == [b[0]] + b[1..][..i];
        assert Before(a, b);
      }
    } else if b != [] && (a == [] || a[0] < b[0]) {
      assert a[..0] == b[..0];
      assert Before(a, b);
    } else if Before(a, b) {
      BeforeHead(a, b);
    }
  }

  lemma BeforeHead(a: string, b: string)
    requires Before(a, b)
    ensures b != [] && (a == [] || a[0] <= b[0])
  {
    var i: nat :| i <= |a| && i < |b| && a[..i] == b[..i] && (i == |a| || a[i] < b[i]);
    if i > 0 {
      assert a[..i][0] == b[..i][0];
    }
  }

  lemma BeforeTail(a: string, b: string, i: nat)
    requires a != [] && b != [] && a[0] == b[0]
    requires i <= |a| && i < |b| && a[..i] == b[..i] && (i == |a| || a[i] < b[i])
    ensures Before(a[1..], b[1..])
  {
    var j: nat := i - 1;
    assert a[1..][..j] == a[..i][1..] && b[1..][..j] == b[..i][1..];
    assert j < |a[1..]| ==> a[1..][j] == a[i];
    assert b[1..][j] == b[i];
  }

  ghost predicate PartAt(s: string, part: string, i: nat) {
    i + |part| <= |s| && s[i..i + |part|] == part
  }

  lemma PartShift(s: string, part: string, i: nat)
    requires s != []
    ensures PartAt(s, part, i + 1) <==> PartAt(s[1..], part, i)
  {
    if i + 1 + |part| <= |s| {
      assert s[1..][i..i + |part|] == s[i + 1..i + 1 + |part|];
    }
  }

  lemma PartAtHead(s: string, part: string)
    ensures PartAt(s, part, 0) <==> part <= s
  {
  }

  lemma {:induction false} IncludesExact(s: string, part: string)
    ensures Includes(s, part) <==> exists i: nat :: PartAt(s, part, i)
  {
    PartAtHead(s, part);
    if s != [] && !(part <= s) {
      IncludesExact(s[1..], part);
      if i: nat :| PartAt(s[1..], part, i) {
        PartShift(s, part, i);
      }
      if i: nat :| i > 0 && PartAt(s, part, i) {
        PartShift(s, part, i - 1);
      }
    }
  }

  /** Texts are compared character by character; EQUAL is equality, CONTAINS looks for the lowered part anywhere
      in the lowered text. */
  lemma TextsJudged(js: Runtime, rule: Rule, lo: string, hi: string, x: string)
    requires rule.value == Text(lo) && rule.value2 == Text(hi)
    ensures var holds := EvaluateCondition(js, rule, Text(x));
            && (rule.condition == GREATER_THAN ==> (holds <==> Before(lo, x)))
            && (rule.condition == LESS_THAN ==> (holds <==> Before(x, lo)))
            && (rule.condition == GREATER_THAN_OR_EQUAL ==> (holds <==> !Before(x, lo)))
            && (rule.condition == LESS_THAN_OR_EQUAL ==> (holds <==> !Before(lo, x)))
            && (rule.condition == BETWEEN ==> (holds <==> !Before(x, lo) && !Before(hi, x)))
            && (rule.condition == OUTSIDE ==> (holds <==> Before(x, lo) || Before(hi, x)))
            && (rule.condition == EQUAL ==> (holds <==> x == lo))
            && (rule.condition == NOT_EQUAL ==> (holds <==> x != lo))
            && (rule.condition == CONTAINS ==> (holds <==> exists i: nat :: PartAt(js.lower(x), js.lower(lo), i)))
            && (rule.condition == NOT_CONTAINS ==> (holds <==> forall i: nat :: !PartAt(js.lower(x), js.lower(lo), i)))
  {
    BeforeExact(lo, x);
    BeforeExact(x, lo);
    BeforeExact(x, hi);
    BeforeExact(hi, x);
    IncludesExact(js.lower(x), js.lower(lo));
  }

  // ---- Values of different kinds ---------------------------------------------------

  /** What a value is as a number; None is NaN. */
  ghost predicate NumberIs(js: Runtime, v: Value, x: Option<real>) {
    && (v == Undefined ==> x == None)
    && (v in {Null, Flag(false)} ==> x == Some(0.0))
    && (v == Flag(true) ==> x == Some(1.0))
    && (forall n :: v == Number(n) ==> x == Some(n))
    && (forall t :: v == Text(t) ==> x == js.numberOf(t))
  }

  /** What a value is as a text. */
  ghost predicate TextIs(js: Runtime, v: Value, s: string) {
    && (v == Undefined ==> s == "undefined")
    && (v == Null ==> s == "null")
    && (v == Flag(false) ==> s == "false")
    && (v == Flag(true) ==> s == "true")
    && (forall n :: v == Number(n) ==> s == js.textOf(n))
    && (forall t :: v == Text(t) ==> s == t)
  }

  ghost predicate Under(x: Option<real>, y: Option<real>) {
    x != None && y != None && x.value < y.value
  }

  ghost predicate NotOver(x: Option<real>, y: Option<real>) {
    x != None && y != None && x.value <= y.value
  }

  /** A value that is not a text is ordered as a number against any, and so are limits that are not texts. */
  lemma MixedJudged(js: Runtime, rule: Rule, v: Value, lo: Option<real>, hi: Option<real>, x: Option<real>)
    requires !v.Text? || (!rule.value.Text? && !rule.value2.Text?)
    requires NumberIs(js, v, x) && NumberIs(js, rule.value, lo) && NumberIs(js, rule.value2, hi)
    ensures var holds := EvaluateCondition(js, rule, v);
            && (rule.condition == GREATER_THAN ==> (holds <==> Under(lo, x)))
            && (rule.condition == LESS_THAN ==> (holds <==> Under(x, lo)))
            && (rule.condition == GREATER_THAN_OR_EQUAL ==> (holds <==> NotOver(lo, x)))
            && (rule.condition == LESS_THAN_OR_EQUAL ==> (holds <==> NotOver(x, lo)))
            && (rule.condition == BETWEEN ==> (holds <==> NotOver(lo, x) && NotOver(x, hi)))
            && (rule.condition == OUTSIDE ==> (holds <==> Under(x, lo) || Under(hi, x)))
  {
  }

  /** EQUAL and CONTAINS compare string forms; EXISTS asks for a value; an unknown condition never holds. */
  lemma FormsJudged(js: Runtime, rule: Rule, v: Value, s: string, part: string)
    requires TextIs(js, v, s) && TextIs(js, rule.value, part)
    ensures var holds := EvaluateCondition(js, rule, v);
            && (rule.condition == EQUAL ==> (holds <==> s == part))
            && (rule.condition == NOT_EQUAL ==> (holds <==> s != part))
            && (rule.condition == CONTAINS ==> (holds <==> exists i: nat :: PartAt(js.lower(s), js.lower(part), i)))
            && (rule.condition == NOT_CONTAINS ==> (holds <==> forall i: nat :: !PartAt(js.lower(s), js.lower(part), i)))
            && (rule.condition == EXISTS ==> (holds <==> v !in {Undefined, Null}))
            && (rule.condition == UNKNOWN ==> !holds)
  {
    IncludesExact(js.lower(s), js.lower(part));
  }

  // ---- One check -------------------------------------------------------------------

  /** All but what a check may write. */
  ghost predicate SameRule(a: Alarm, b: Alarm) {
    && b.id == a.id && b.tenantId == a.tenantId && b.deviceId == a.deviceId && b.isEnabled == a.isEnabled
    && b.autoClear == a.autoClear && b.rule == a.rule && b.acknowledgedBy == a.acknowledgedBy
  }

  ghost predicate SameReading(a: Alarm, b: Alarm) {
    && b.currentValue == a.currentValue && b.triggeredAt == a.triggeredAt
    && b.lastTriggeredAt == a.lastTriggeredAt && b.triggerCount == a.triggerCount
  }

  /** b is a triggered by v: active, counted, with the value if it is a number, and with its first time kept. */
  ghost predicate TriggeredBy(a: Alarm, b: Alarm, v: Value, now: int) {
    && SameRule(a, b) && b.clearedAt == a.clearedAt
    && b.status == ACTIVE && b.triggerCount == a.triggerCount + 1 && b.lastTriggeredAt == Some(now)
    && (a.triggeredAt == None ==> b.triggeredAt == Some(now)) && (a.triggeredAt != None ==> b.triggeredAt == a.triggeredAt)
    && (forall x :: v == Number(x) ==> b.currentValue == Some(x)) && (!v.Number? ==> b.currentValue == None)
  }

  ghost predicate ClearedFrom(a: Alarm, b: Alarm, now: int) {
    SameRule(a, b) && SameReading(a, b) && b.status == CLEARED && b.clearedAt == Some(now)
  }

  /** Only a resolved alarm is not cleared. */
  lemma ClearedExactly(a: Alarm, now: int)
    ensures a.status == RESOLVED ==> ClearAlarm(a, now) == a
    ensures a.status != RESOLVED ==> ClearedFrom(a, ClearAlarm(a, now), now)
  {
  }

  /** A condition that holds triggers, with an event unless the alarm was active before; one that does not clears
      an active alarm that asks for it, with an event; else nothing happens. */
  lemma CheckedExactly(js: Runtime, a: Alarm, v: Value, now: int)
    ensures var b, events := CheckAlarm(js, a, v, now), CheckEvents(js, a, v, now);
            var holds := EvaluateCondition(js, a.rule, v);
            && (holds ==> TriggeredBy(a, b, v, now))
            && (holds ==> events == if a.status == ACTIVE && a.triggerCount >= 1 then [] else [Triggered(b)])
            && (!holds && a.autoClear && a.status == ACTIVE ==> ClearedFrom(a, b, now) && events == [Cleared(b)])
            && (!holds && (!a.autoClear || a.status != ACTIVE) ==> b == a && events == [])
  {
  }

  // ---- Whole checks ----------------------------------------------------------------

  /** checkAlarmConditions checks the enabled alarms on this key of the device in its tenant, and no other. */
  lemma KeyChecked(js: Runtime, table: seq<Alarm>, device: Id, tenant: Id, key: string, v: Value, now: int, i: nat)
    requires i < |table|
    ensures var after := CheckRows(js, table, ForKey(device, tenant, key, v), now);
            var a := table[i];
            && |after| == |table|
            && after[i] == if a.deviceId == Some(device) && a.tenantId == tenant && a.isEnabled && a.rule.telemetryKey == key
                           then CheckAlarm(js, a, v, now) else a
  {
    CheckedRows(js, table, ForKey(device, tenant, key, v), now);
  }

  /** checkAlarmConditionsBatch checks them on all listed keys that the data has a value for. */
  lemma KeysChecked(js: Runtime, table: seq<Alarm>, device: Id, tenant: Id, data: map<string, Value>, keys: seq<string>, now: int, i: nat)
    requires i < |table|
    ensures var after := CheckRows(js, table, ForKeys(device, tenant, data, KeysOf(keys)), now);
            var a := table[i];
            var k := a.rule.telemetryKey;
            && |after| == |table|
            && after[i] == if a.deviceId == Some(device) && a.tenantId == tenant && a.isEnabled
                              && k in keys && k in data && data[k] != Undefined
                           then CheckAlarm(js, a, data[k], now) else a
  {
    CheckedRows(js, table, ForKeys(device, tenant, data, KeysOf(keys)), now);
  }

  lemma {:induction false} EventsConcat(js: Runtime, a: seq<Alarm>, b: seq<Alarm>, select: Selection, now: int)
    ensures RowsEvents(js, a + b, select, now) == RowsEvents(js, a, select, now) + RowsEvents(js, b, select, now)
  {
    if a == [] {
      assert a + b == b;
    } else {
      assert (a + b)[1..] == a[1..] + b;
      EventsConcat(js, a[1..], b, select, now);
    }
  }

  /** The events come row after row. */
  lemma EventsInOrder(js: Runtime, before: seq<Alarm>, a: Alarm, after: seq<Alarm>, select: Selection, now: int)
    ensures RowsEvents(js, before + [a] + after, select, now)
         == RowsEvents(js, before, select, now)
          + (if select(a) == None then [] else CheckEvents(js, a, select(a).value, now))
          + RowsEvents(js, after, select, now)
    ensures RowsEvents(js, [], select, now) == []
  {
    EventsConcat(js, before + [a], after, select, now);
    EventsConcat(js, before, [a], select, now);
  }

  // ---- Acknowledging and clearing --------------------------------------------------

  /** A row is moved when its id is listed, in its tenant, and it is active, or acknowledged and to be cleared. */
  lemma MovedExactly(table: seq<Alarm>, m: Move, tenant: Id, ids: seq<Id>, now: int, i: nat)
    requires i < |table|
    ensures var after := MoveAll(table, m, tenant, ids, now);
            && |after| == |table|
            && var a, b := table[i], after[i];
               if a.tenantId == tenant && a.id in ids && (a.status == ACTIVE || (a.status == ACKNOWLEDGED && m == Clear))
               then (m == Clear ==> ClearedFrom(a, b, now))
                 && (forall u: Id :: m == Acknowledge(u) ==> b == a.(status := ACKNOWLEDGED, acknowledgedBy := Some(u)))
               else b == a
  {
    MovedRows(table, m, tenant, ids, now);
  }

  /** Its event carries the moved row, and who acknowledged it. */
  lemma MoveEventExact(m: Move, a: Alarm, now: int)
    requires a.status in {ACTIVE, ACKNOWLEDGED}
    ensures m == Clear ==> exists b :: MoveEvent(m, a, now) == Cleared(b) && ClearedFrom(a, b, now)
    ensures forall u: Id :: m == Acknowledge(u) ==>
              MoveEvent(m, a, now) == Acknowledged(a.(status := ACKNOWLEDGED, acknowledgedBy := Some(u)), u)
  {
    if m == Clear {
      assert MoveEvent(m, a, now) == Cleared(ClearAlarm(a, now)) && ClearedFrom(a, ClearAlarm(a, now), now);
    }
  }
}
