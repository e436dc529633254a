/** Topic names, the subscribed filters, and the key read back from a topic. */
module MqttTopics {
  import opened Options

  const SLASH := '/'

  function Join(levels: seq<string>): string {
    if levels == [] then [] else if |levels| == 1 then levels[0] else levels[0] + ([SLASH] + Join(levels[1..]))
  }

  /** split('/') */
  function Split(s: string): (levels: seq<string>)
    ensures levels != []
  {
    if s == [] then [[]]
    else
      var more := Split(s[1..]);
      if s[0] == SLASH then [[]] + more else [[s[0]] + more[0]] + more[1..]
  }

  predicate SlashFree(s: string) {
    SLASH !in s
  }

  // ---- Topics of a device ----------------------------------------------------------

  datatype Protocol = LORAWAN_MILESIGHT | LORAWAN_CHIRPSTACK | GENERIC_MQTT | OTHER

  datatype Device = Device(protocol: Protocol, deviceKey: string, devEUI: Option<string>)

  datatype Strategy = Strategy(telemetry: string, attributes: string, status: string, alerts: string, commands: string)

  predicate IsLorawan(p: Protocol) {
    p == LORAWAN_MILESIGHT || p == LORAWAN_CHIRPSTACK
  }

  /** What a device is known by in its topics: a LoRaWAN device without a devEUI is an error. */
  function Key(d: Device): Option<string> {
    if !IsLorawan(d.protocol) then Some(d.deviceKey)
    else if d.devEUI.Some? && d.devEUI.value != [] then d.devEUI
    else None
  }

  function Base(p: Protocol, key: string, application: string): seq<string> {
    match p
    case LORAWAN_MILESIGHT => ["application", "1", "device", key]
    case LORAWAN_CHIRPSTACK => ["application", application, "device", key]
    case _ => ["devices", key]
  }

  function GetTopicStrategy(d: Device): Option<Strategy> {
    if Key(d).None? then None else
    var base := Base(d.protocol, Key(d).value, "+");
    match d.protocol
    case LORAWAN_MILESIGHT =>
      Some(Strategy(Join(base + ["rx"]), Join(base + ["event", "up"]), Join(base + ["event", "status"]),
                    Join(base + ["event", "error"]), Join(base + ["tx"])))
    case LORAWAN_CHIRPSTACK =>
      Some(Strategy(Join(base + ["event", "up"]), Join(base + ["event", "join"]), Join(base + ["event", "status"]),
                    Join(base + ["event", "error"]), Join(base + ["command", "down"])))
    case _ =>
      Some(Strategy(Join(base + ["telemetry"]), Join(base + ["attributes"]), Join(base + ["status"]),
                    Join(base + ["alerts"]), Join(base + ["commands"])))
  }

  /** The topic a device publishes to: a ChirpStack server fills in its application id. */
  function Published(p: Protocol, topic: string, application: string): string {
    var levels := Split(topic);
    if p == LORAWAN_CHIRPSTACK && |levels| > 1 then Join(levels[1 := application]) else topic
  }

  // ---- Filters ---------------------------------------------------------------------

  const UPLINK_TOPICS: seq<seq<string>> := [
    ["devices", "+", "telemetry"],
    ["devices", "+", "attributes"],
    ["devices", "+", "status"],
    ["devices", "+", "alerts"],
    ["application", "1", "device", "+", "rx"],
    ["application", "1", "device", "+", "event", "+"],
    ["application", "+", "device", "+", "event", "up"],
    ["application", "+", "device", "+", "event", "+"]]

  /** Section 4.7.1 of MQTT Version 3.1.1: '+' stands for one level, a last '#' for all that are left. */
  predicate LevelsMatch(f: seq<string>, t: seq<string>) {
    if f == [] then t == []
    else if f[0] == "#" then |f| == 1
    else t != [] && (f[0] == "+" || f[0] == t[0]) && LevelsMatch(f[1..], t[1..])
  }

  predicate Subscribed(topic: string) {
    exists i :: 0 <= i < |UPLINK_TOPICS| && LevelsMatch(Split(Join(UPLINK_TOPICS[i])), Split(topic))
  }

  function ExtractDeviceKey(topic: string): Option<string> {
    var parts := Split(topic);
    if parts[0] == "devices" && |parts| >= 3 then Some(parts[1])
    else if parts[0] == "application" && |parts| >= 4 && parts[2] == "device" then Some(parts[3])
    else None
  }

  // ---- Splitting what was joined ---------------------------------------------------

  lemma {:induction false} SplitLevel(s: string, rest: string)
    requires SlashFree(s)
    ensures Split(s + ([SLASH] + rest)) == [s] + Split(rest)
  {
    if s == [] {
      assert s + ([SLASH] + rest) == [SLASH] + rest;
      assert ([SLASH] + rest)[1..] == rest;
    } else {
      SplitLevel(s[1..], rest);
      assert (s + ([SLASH] + rest))[1..] == s[1..] + ([SLASH] + rest);
      assert [s[0]] + s[1..] == s;
    }
  }

  lemma {:induction false} SplitOne(s: string)
    requires SlashFree(s)
    ensures Split(s) == [s]
  {
    if s != [] {
      SplitOne(s[1..]);
      assert [s[0]] + s[1..] == s;
    }
  }

  ghost predicate AllSlashFree(levels: seq<string>) {
    forall i :: 0 <= i < |levels| ==> SlashFree(levels[i])
  }

  lemma {:induction false} SplitJoin(levels: seq<string>)
    requires levels != [] && AllSlashFree(levels)
    ensures Split(Join(levels)) == levels
  {
    if |levels| == 1 {
      SplitOne(levels[0]);
    } else {
      SplitJoin(levels[1..]);
      SplitLevel(levels[0], Join(levels[1..]));
    }
  }

  // ---- Topics against filters ------------------------------------------------------

  /** Level by level, the filter has a '+' or the topic's own level. */
  predicate Fits(f: seq<string>, t: seq<string>) {
    |f| == |t| && forall i :: 0 <= i < |f| ==> f[i] == "+" || f[i] == t[i]
  }

  lemma {:induction false} MatchByLevel(f: seq<string>, t: seq<string>)
    requires forall i :: 0 <= i < |f| ==> f[i] != "#"
    ensures LevelsMatch(f, t) <==> Fits(f, t)
  {
    if f != [] && t != [] {
      MatchByLevel(f[1..], t[1..]);
      assert f == [f[0]] + f[1..] && t == [t[0]] + t[1..];
    }
  }

  lemma Literals()
    ensures forall i :: 0 <= i < |UPLINK_TOPICS| ==>
              UPLINK_TOPICS[i] != [] && AllSlashFree(UPLINK_TOPICS[i]) && forall j :: 0 <= j < |UPLINK_TOPICS[i]| ==> UPLINK_TOPICS[i][j] != "#"
  {
  }

  lemma FilterMatches(i: nat, t: seq<string>)
    requires i < |UPLINK_TOPICS| && t != [] && AllSlashFree(t)
    ensures LevelsMatch(Split(Join(UPLINK_TOPICS[i])), Split(Join(t))) <==> Fits(UPLINK_TOPICS[i], t)
  {
    Literals();
    SplitJoin(t);
    SplitJoin(UPLINK_TOPICS[i]);
    MatchByLevel(UPLINK_TOPICS[i], t);
  }

  /** A topic is subscribed when, level by level, it fits one of the eight filters. */
  lemma SubscribedByLevel(t: seq<string>)
    requires t != [] && AllSlashFree(t)
    ensures Subscribed(Join(t)) <==> exists i :: 0 <= i < |UPLINK_TOPICS| && Fits(UPLINK_TOPICS[i], t)
  {
    forall i | 0 <= i < |UPLINK_TOPICS| {
      FilterMatches(i, t);
    }
  }

  lemma BaseSlashFree(p: Protocol, key: string, application: string)
    requires SlashFree(key) && SlashFree(application)
    ensures AllSlashFree(Base(p, key, application))
  {
  }

  lemma PublishedLevels(p: Protocol, key: string, application: string, ending: seq<string>)
    requires SlashFree(key) && SlashFree(application) && AllSlashFree(ending)
    ensures Published(p, Join(Base(p, key, "+") + ending), application) == Join(Base(p, key, application) + ending)
    ensures AllSlashFree(Base(p, key, application) + ending)
  {
    BaseSlashFree(p, key, "+");
    BaseSlashFree(p, key, application);
    SplitJoin(Base(p, key, "+") + ending);
    if p == LORAWAN_CHIRPSTACK {
      assert (Base(p, key, "+") + ending)[1 := application] == Base(p, key, application) + ending;
    }
  }

  lemma ExtractedKey(p: Protocol, key: string, application: string, ending: seq<string>)
    requires SlashFree(key) && SlashFree(application) && AllSlashFree(ending) && ending != []
    ensures ExtractDeviceKey(Join(Base(p, key, application) + ending)) == Some(key)
  {
    BaseSlashFree(p, key, application);
    SplitJoin(Base(p, key, application) + ending);
  }

  /** What an uplink topic of the strategy must do: reach a subscription, and give the key back. */
  predicate Reaches(p: Protocol, key: string, topic: string, application: string) {
    Subscribed(Published(p, topic, application)) && ExtractDeviceKey(Published(p, topic, application)) == Some(key)
  }

  /** An ending after the device's base reaches a subscription if some filter takes both. */
  lemma EndingReaches(p: Protocol, key: string, application: string, ending: seq<string>, i: nat)
    requires SlashFree(key) && SlashFree(application)
    requires AllSlashFree(ending) && ending != [] && i < |UPLINK_TOPICS|
    requires Fits(UPLINK_TOPICS[i], Base(p, key, application) + ending)
    ensures Reaches(p, key, Join(Base(p, key, "+") + ending), application)
  {
    PublishedLevels(p, key, application, ending);
    SubscribedByLevel(Base(p, key, application) + ending);
    ExtractedKey(p, key, application, ending);
  }

  ghost predicate AllReach(p: Protocol, key: string, s: Strategy, application: string) {
    && Reaches(p, key, s.telemetry, application) && Reaches(p, key, s.attributes, application)
    && Reaches(p, key, s.status, application) && Reaches(p, key, s.alerts, application)
  }

  lemma EventReaches(p: Protocol, key: string, application: string, event: string)
    requires SlashFree(key) && SlashFree(application) && SlashFree(event) && IsLorawan(p)
    ensures Reaches(p, key, Join(Base(p, key, "+") + ["event", event]), application)
  {
    EndingReaches(p, key, application, ["event", event], 7);
  }

  lemma RxReaches(key: string, application: string)
    requires SlashFree(key) && SlashFree(application)
    ensures Reaches(LORAWAN_MILESIGHT, key, Join(Base(LORAWAN_MILESIGHT, key, "+") + ["rx"]), application)
  {
    EndingReaches(LORAWAN_MILESIGHT, key, application, ["rx"], 4);
  }

  lemma GenericReaches(p: Protocol, key: string, application: string, i: nat)
    requires SlashFree(key) && SlashFree(application) && !IsLorawan(p) && i < 4
    ensures Reaches(p, key, Join(Base(p, key, "+") + [UPLINK_TOPICS[i][2]]), application)
  {
    Literals();
    EndingReaches(p, key, application, [UPLINK_TOPICS[i][2]], i);
  }

  lemma GenericEndings()
    ensures UPLINK_TOPICS[0][2] == "telemetry" && UPLINK_TOPICS[1][2] == "attributes"
    ensures UPLINK_TOPICS[2][2] == "status" && UPLINK_TOPICS[3][2] == "alerts"
  {
  }

  lemma GenericUplinksReach(d: Device, application: string)
    requires !IsLorawan(d.protocol) && SlashFree(d.deviceKey) && SlashFree(application)
    ensures AllReach(d.protocol, d.deviceKey, GetTopicStrategy(d).value, application)
  {
    GenericEndings();
    GenericReaches(d.protocol, d.deviceKey, application, 0);
    GenericReaches(d.protocol, d.deviceKey, application, 1);
    GenericReaches(d.protocol, d.deviceKey, application, 2);
    GenericReaches(d.protocol, d.deviceKey, application, 3);
  }

  lemma LorawanUplinksReach(d: Device, application: string)
    requires IsLorawan(d.protocol) && Key(d).Some? && SlashFree(Key(d).value) && SlashFree(application)
    ensures AllReach(d.protocol, Key(d).value, GetTopicStrategy(d).value, application)
  {
    var key := Key(d).value;
    RxReaches(key, application);
    EventReaches(d.protocol, key, application, "up");
    EventReaches(d.protocol, key, application, "join");
    EventReaches(d.protocol, key, application, "status");
    EventReaches(d.protocol, key, application, "error");
  }

  /** For every slash-free key, devEUI and application id each uplink topic of the strategy reaches a subscription
      and gives the key back. */
  lemma UplinksReach(d: Device, application: string)
    requires Key(d).Some? && SlashFree(Key(d).value) && SlashFree(application)
    ensures AllReach(d.protocol, Key(d).value, GetTopicStrategy(d).value, application)
  {
    if IsLorawan(d.protocol) {
      LorawanUplinksReach(d, application);
    } else {
      GenericUplinksReach(d, application);
    }
  }

  /** A topic that differs from each filter of its length at some level is not subscribed. */
  lemma NotSubscribed(t: seq<string>, j: nat)
    requires AllSlashFree(t) && j < |t|
    requires forall i :: 0 <= i < |UPLINK_TOPICS| && |UPLINK_TOPICS[i]| == |t| ==>
               UPLINK_TOPICS[i][j] != "+" && UPLINK_TOPICS[i][j] != t[j]
    ensures !Subscribed(Join(t))
  {
    SubscribedByLevel(t);
  }

  lemma EndingNotSubscribed(p: Protocol, key: string, application: string, ending: seq<string>)
    requires SlashFree(key) && SlashFree(application)
    requires p == LORAWAN_MILESIGHT ==> ending == ["tx"]
    requires p == LORAWAN_CHIRPSTACK ==> ending == ["command", "down"]
    requires !IsLorawan(p) ==> ending == ["commands"]
    ensures !Subscribed(Published(p, Join(Base(p, key, "+") + ending), application))
  {
    PublishedLevels(p, key, application, ending);
    NotSubscribed(Base(p, key, application) + ending, if IsLorawan(p) then 4 else 2);
  }

  /** No commands topic comes back through a subscription. */
  lemma CommandsNotSubscribed(d: Device, application: string)
    requires Key(d).Some? && SlashFree(Key(d).value) && SlashFree(application)
    ensures !Subscribed(Published(d.protocol, GetTopicStrategy(d).value.commands, application))
  {
    var ending := match d.protocol
      case LORAWAN_MILESIGHT => ["tx"]
      case LORAWAN_CHIRPSTACK => ["command", "down"]
      case _ => ["commands"];
    EndingNotSubscribed(d.protocol, Key(d).value, application, ending);
  }

  // ---- The names written out -------------------------------------------------------

  lemma JoinTwo(a: string, rest: seq<string>)
    requires rest != []
    ensures Join([a] + rest) == a + "/" + Join(rest)
  {
    assert ([a] + rest)[1..] == rest;
  }

  lemma JoinThree(a: string, b: string, c: string)
    ensures Join([a, b, c]) == a + "/" + b + "/" + c
  {
    JoinTwo(b, [c]);
    JoinTwo(a, [b, c]);
    assert [a] + [b, c] == [a, b, c] && [b] + [c] == [b, c];
  }

  lemma JoinFive(a: string, b: string, c: string, d: string, e: string)
    ensures Join([a, b, c, d, e]) == a + "/" + b + "/" + c + "/" + d + "/" + e
  {
    JoinThree(c, d, e);
    JoinTwo(b, [c, d, e]);
    JoinTwo(a, [b, c, d, e]);
    assert [a] + [b, c, d, e] == [a, b, c, d, e] && [b] + [c, d, e] == [b, c, d, e];
  }

  lemma JoinSix(a: string, b: string, c: string, d: string, e: string, f: string)
    ensures Join([a, b, c, d, e, f]) == a + "/" + b + "/" + c + "/" + d + "/" + e + "/" + f
  {
    JoinFive(b, c, d, e, f);
    JoinTwo(a, [b, c, d, e, f]);
    assert [a] + [b, c, d, e, f] == [a, b, c, d, e, f];
  }

  /** There is no strategy exactly for a LoRaWAN device whose devEUI is missing or empty. */
  lemma StrategyExists(d: Device)
    ensures GetTopicStrategy(d) == None <==> d.protocol in {LORAWAN_MILESIGHT, LORAWAN_CHIRPSTACK} && d.devEUI in {None, Some("")}
  {
  }

  lemma OneMoreLevel(base: seq<string>, a: string, b: string, c: string, key: string, x: string)
    requires base == [a, b, c, key]
    ensures base + [x] == [a, b, c, key, x]
  {
  }

  lemma TwoMoreLevels(base: seq<string>, a: string, b: string, c: string, key: string, x: string, y: string)
    requires base == [a, b, c, key]
    ensures base + [x, y] == [a, b, c, key, x, y]
  {
  }

  /** The names of a device without LoRaWAN. */
  lemma GenericNames(d: Device)
    requires d.protocol !in {LORAWAN_MILESIGHT, LORAWAN_CHIRPSTACK}
    ensures var s := GetTopicStrategy(d).value;
            && s.telemetry == Join(["devices", d.deviceKey, "telemetry"])
            && s.attributes == Join(["devices", d.deviceKey, "attributes"])
            && s.status == Join(["devices", d.deviceKey, "status"])
            && s.alerts == Join(["devices", d.deviceKey, "alerts"])
            && s.commands == Join(["devices", d.deviceKey, "commands"])
  {
    var base := ["devices", d.deviceKey];
    assert base + ["telemetry"] == ["devices", d.deviceKey, "telemetry"];
    assert base + ["attributes"] == ["devices", d.deviceKey, "attributes"];
    assert base + ["status"] == ["devices", d.deviceKey, "status"];
    assert base + ["alerts"] == ["devices", d.deviceKey, "alerts"];
    assert base + ["commands"] == ["devices", d.deviceKey, "commands"];
  }

  lemma MilesightNames(d: Device, eui: string)
    requires d.protocol == LORAWAN_MILESIGHT && d.devEUI == Some(eui) && eui != ""
    ensures var s := GetTopicStrategy(d).value;
            && s.telemetry == Join(["application", "1", "device", eui, "rx"])
            && s.attributes == Join(["application", "1", "device", eui, "event", "up"])
            && s.status == Join(["application", "1", "device", eui, "event", "status"])
            && s.alerts == Join(["application", "1", "device", eui, "event", "error"])
            && s.commands == Join(["application", "1", "device", eui, "tx"])
  {
    var base := Base(LORAWAN_MILESIGHT, eui, "+");
    OneMoreLevel(base, "application", "1", "device", eui, "rx");
    OneMoreLevel(base, "application", "1", "device", eui, "tx");
    TwoMoreLevels(base, "application", "1", "device", eui, "event", "up");
    TwoMoreLevels(base, "application", "1", "device", eui, "event", "status");
    TwoMoreLevels(base, "application", "1", "device", eui, "event", "error");
  }

  lemma ChirpstackNames(d: Device, eui: string)
    requires d.protocol == LORAWAN_CHIRPSTACK && d.devEUI == Some(eui) && eui != ""
    ensures var s := GetTopicStrategy(d).value;
            && s.telemetry == Join(["application", "+", "device", eui, "event", "up"])
            && s.attributes == Join(["application", "+", "device", eui, "event", "join"])
            && s.status == Join(["application", "+", "device", eui, "event", "status"])
            && s.alerts == Join(["application", "+", "device", eui, "event", "error"])
            && s.commands == Join(["application", "+", "device", eui, "command", "down"])
  {
    var base := Base(LORAWAN_CHIRPSTACK, eui, "+");
    TwoMoreLevels(base, "application", "+", "device", eui, "event", "up");
    TwoMoreLevels(base, "application", "+", "device", eui, "event", "join");
    TwoMoreLevels(base, "application", "+", "device", eui, "event", "status");
    TwoMoreLevels(base, "application", "+", "device", eui, "event", "error");
    TwoMoreLevels(base, "application", "+", "device", eui, "command", "down");
  }

  /** The eight filters as they are subscribed. */
  lemma DeviceFilterNames()
    ensures |UPLINK_TOPICS| == 8
    ensures Join(UPLINK_TOPICS[0]) == "devices/+/telemetry" && Join(UPLINK_TOPICS[1]) == "devices/+/attributes"
    ensures Join(UPLINK_TOPICS[2]) == "devices/+/status" && Join(UPLINK_TOPICS[3]) == "devices/+/alerts"
  {
    JoinThree("devices", "+", "telemetry");
    JoinThree("devices", "+", "attributes");
    JoinThree("devices", "+", "status");
    JoinThree("devices", "+", "alerts");
  }

  lemma MilesightFilterNames()
    ensures Join(UPLINK_TOPICS[4]) == "application/1/device/+/rx" && Join(UPLINK_TOPICS[5]) == "application/1/device/+/event/+"
  {
    JoinFive("application", "1", "device", "+", "rx");
    JoinSix("application", "1", "device", "+", "event", "+");
  }

  lemma ChirpstackUpFilterName()
    ensures Join(UPLINK_TOPICS[6]) == "application/+/device/+/event/up"
  {
    JoinSix("application", "+", "device", "+", "event", "up");
  }

  lemma ChirpstackFilterName()
    ensures Join(UPLINK_TOPICS[7]) == "application/+/device/+/event/+"
  {
    JoinSix("application", "+", "device", "+", "event", "+");
  }

  /** A key is read from the second level of a devices topic of three levels or more, and from the fourth level of
      an application topic whose third is device; from no other topic. */
  lemma KeyRead(levels: seq<string>)
    requires levels != [] && AllSlashFree(levels)
    ensures forall k :: ExtractDeviceKey(Join(levels)) == Some(k) <==>
              || (|levels| >= 3 && levels[0] == "devices" && k == levels[1])
              || (|levels| >= 4 && levels[0] == "application" && levels[2] == "device" && k == levels[3])
  {
    SplitJoin(levels);
  }
}
