/** The device command protocol: a command travels as one message through the Kafka queue and
    through timers until it is delivered or its retry budget is spent. */
module DeviceCommands {
  import opened Options
  import opened Counting

  datatype Status = PENDING | SCHEDULED | SENDING | RETRYING | DELIVERED | FAILED

  predicate Terminal(s: Status) {
    s == DELIVERED || s == FAILED
  }

  /** `runs` is history: how many times processCommand has run for the command. */
  datatype Command = Command(createdAt: int, scheduledFor: Option<int>, status: Status, deliveredAt: Option<int>, runs: nat)

  datatype Message = Message(id: Id, retries: int, scheduledFor: Option<int>)

  datatype Timer = Timer(due: int, message: Message)

  datatype World = World(now: int, commands: map<Id, Command>, queue: seq<Message>, timers: seq<Timer>)

  // ---- The handlers ----------------------------------------------------------------

  const RETRIES := 3

  /** The longest delay a Node.js timer takes; any longer one is set to 1 ms. */
  const MAX_DELAY := 0x7FFF_FFFF

  function TimerDelay(delay: int): int {
    if delay < 1 || delay > MAX_DELAY then 1 else delay
  }

  function Pow2(n: nat): nat {
    if n == 0 then 1 else 2 * Pow2(n - 1)
  }

  function RetryDelay(retriesLeft: int): int {
    if retriesLeft <= 3 then Pow2(3 - retriesLeft) * 1000 else 1000 / Max(1, Pow2(retriesLeft - 3))
  }

  function SetTimeout(w: World, delay: int, m: Message): World {
    w.(timers := w.timers + [Timer(w.now + TimerDelay(delay), m)])
  }

  function UpdateStatus(w: World, id: Id, status: Status): World {
    if id !in w.commands then w else
    var c := w.commands[id];
    w.(commands := w.commands[id := c.(status := status,
                                       deliveredAt := if status == DELIVERED then Some(w.now) else c.deliveredAt)])
  }

  function CreateCommand(w: World, id: Id, scheduledFor: Option<int>): World {
    w.(commands := w.commands[id := Command(w.now, scheduledFor, if scheduledFor.Some? then SCHEDULED else PENDING, None, 0)],
       queue := w.queue + [Message(id, RETRIES, scheduledFor)])
  }

  function HandleCommandFailure(w: World, m: Message): World {
    var retriesLeft := m.retries - 1;
    if retriesLeft > 0
    then UpdateStatus(SetTimeout(w, RetryDelay(retriesLeft), m.(retries := retriesLeft)), m.id, RETRYING)
    else UpdateStatus(w, m.id, FAILED)
  }

  function CountRun(w: World, id: Id): World {
    if id in w.commands then w.(commands := w.commands[id := w.commands[id].(runs := w.commands[id].runs + 1)]) else w
  }

  /** `deviceExists` and `sent` are what the device table and the gateway answer, where a failing update
      to SENDING counts as a failed send; `recorded` is whether the update to DELIVERED goes through. If it does not,
      the run counts as failed although the command was sent. */
  function ProcessCommand(w: World, m: Message, deviceExists: bool, sent: bool, recorded: bool): World {
    if !deviceExists then UpdateStatus(CountRun(w, m.id), m.id, FAILED)
    else
      var sending := UpdateStatus(CountRun(w, m.id), m.id, SENDING);
      if sent && recorded then UpdateStatus(sending, m.id, DELIVERED) else HandleCommandFailure(sending, m)
  }

  predicate Postponed(m: Message, now: int) {
    m.scheduledFor.Some? && m.scheduledFor.value > now
  }

  function HandleMessage(w: World, i: nat, deviceExists: bool, sent: bool, recorded: bool): World
    requires i < |w.queue|
  {
    var m := w.queue[i];
    var taken := w.(queue := RemoveAt(w.queue, i));
    if Postponed(m, w.now) then SetTimeout(taken, m.scheduledFor.value - w.now, m.(scheduledFor := None))
    else ProcessCommand(taken, m, deviceExists, sent, recorded)
  }

  /** A timer's callback puts its message back on the queue. */
  function FireTimer(w: World, i: nat): World
    requires i < |w.timers|
  {
    w.(timers := RemoveAt(w.timers, i), queue := w.queue + [w.timers[i].message])
  }

  // ---- Runs ------------------------------------------------------------------------

  datatype Event =
    | Create(id: Id, scheduledFor: Option<int>)
    | Handle(i: nat, deviceExists: bool, sent: bool, recorded: bool)
    | Fire(i: nat)
    | Tick(ms: nat)

  /** Ids are fresh, messages are taken from the queue in any order, and no timer fires early. */
  predicate Enabled(w: World, e: Event) {
    match e
    case Create(id, _) => id !in w.commands
    case Handle(i, _, _, _) => i < |w.queue|
    case Fire(i) => i < |w.timers| && w.timers[i].due <= w.now
    case Tick(_) => true
  }

  function Next(w: World, e: Event): World
    requires Enabled(w, e)
  {
    match e
    case Create(id, scheduledFor) => CreateCommand(w, id, scheduledFor)
    case Handle(i, deviceExists, sent, recorded) => HandleMessage(w, i, deviceExists, sent, recorded)
    case Fire(i) => FireTimer(w, i)
    case Tick(ms) => w.(now := w.now + ms)
  }

  predicate Legal(w: World, events: seq<Event>)
    decreases |events|
  {
    events != [] ==> Enabled(w, events[0]) && Legal(Next(w, events[0]), events[1..])
  }

  function Run(w: World, events: seq<Event>): World
    requires Legal(w, events)
    decreases |events|
  {
    if events == [] then w else Run(Next(w, events[0]), events[1..])
  }

  // ---- One carrier per command -----------------------------------------------------

  function MessageOf(id: Id): Message -> bool {
    (m: Message) => m.id == id
  }

  function TimerOf(id: Id): Timer -> bool {
    (t: Timer) => t.message.id == id
  }

  /** How many queue messages and timers carry the command. */
  function Carriers(w: World, id: Id): nat {
    Count(w.queue, MessageOf(id)) + Count(w.timers, TimerOf(id))
  }

  /** A carrier's budget and the runs so far add up to 3, and a retry is never postponed again. */
  ghost predicate MessageOk(w: World, m: Message) {
    && m.id in w.commands
    && m.retries >= 1
    && w.commands[m.id].runs + m.retries == RETRIES
    && (m.retries < RETRIES ==> !Postponed(m, w.now))
  }

  /** A finished command has no carrier and has run; any other has exactly one. */
  ghost predicate CommandOk(w: World, id: Id)
    requires id in w.commands
  {
    && w.commands[id].runs <= RETRIES
    && if Terminal(w.commands[id].status) then Carriers(w, id) == 0 && w.commands[id].runs >= 1
       else Carriers(w, id) == 1
  }

  ghost predicate Inv(w: World) {
    && (forall m :: m in w.queue ==> MessageOk(w, m))
    && (forall t :: t in w.timers ==> MessageOk(w, t.message))
    && (forall id :: id in w.commands ==> CommandOk(w, id))
  }

  lemma NoCarrierOfUnknown(w: World, id: Id)
    requires Inv(w) && id !in w.commands
    ensures Carriers(w, id) == 0
  {
    CountPositive(w.queue, MessageOf(id));
    CountPositive(w.timers, TimerOf(id));
  }

  lemma CreateKeeps(w: World, id: Id, scheduledFor: Option<int>)
    requires Inv(w) && id !in w.commands
    ensures Inv(CreateCommand(w, id, scheduledFor))
  {
    var m := Message(id, RETRIES, scheduledFor);
    var x := CreateCommand(w, id, scheduledFor);
    NoCarrierOfUnknown(w, id);
    forall k | k in x.commands ensures CommandOk(x, k) {
      CountAppend(w.queue, m, MessageOf(k));
      assert k in w.commands ==> CommandOk(w, k);
    }
  }

  lemma FireKeeps(w: World, i: nat)
    requires Inv(w) && i < |w.timers|
    ensures Inv(FireTimer(w, i))
  {
    var x := FireTimer(w, i);
    forall k | k in x.commands ensures CommandOk(x, k) {
      CountAppend(w.queue, w.timers[i].message, MessageOf(k));
      CountRemoveAt(w.timers, i, TimerOf(k));
      assert CommandOk(w, k);
    }
    assert MessageOk(w, w.timers[i].message);
  }

  /** The message taken from the queue is the only carrier of its command. */
  lemma OnlyCarrier(w: World, i: nat)
    requires Inv(w) && i < |w.queue|
    ensures forall m :: m in RemoveAt(w.queue, i) ==> m.id != w.queue[i].id
    ensures forall t :: t in w.timers ==> t.message.id != w.queue[i].id
    ensures forall id :: Count(RemoveAt(w.queue, i), MessageOf(id)) == Count(w.queue, MessageOf(id)) - if id == w.queue[i].id then 1 else 0
    ensures w.queue[i].id in w.commands && !Terminal(w.commands[w.queue[i].id].status)
  {
    var id := w.queue[i].id;
    assert MessageOk(w, w.queue[i]) && CommandOk(w, id);
    forall k
      ensures Count(RemoveAt(w.queue, i), MessageOf(k)) == Count(w.queue, MessageOf(k)) - if k == id then 1 else 0
    {
      CountRemoveAt(w.queue, i, MessageOf(k));
    }
    CountPositive(RemoveAt(w.queue, i), MessageOf(id));
    CountPositive(w.timers, TimerOf(id));
    forall m | m in RemoveAt(w.queue, i) ensures m.id != id {
      assert m.id == id ==> MessageOf(id)(m);
    }
    forall t | t in w.timers ensures t.message.id != id {
      assert t.message.id == id ==> TimerOf(id)(t);
    }
  }

  /** Handling a message touches its own command, and leaves a timer for it unless it is finished. */
  lemma HandleEffect(w: World, i: nat, deviceExists: bool, sent: bool, recorded: bool)
    requires i < |w.queue| && w.queue[i].id in w.commands && !Terminal(w.commands[w.queue[i].id].status)
    ensures var m := w.queue[i];
            var x := HandleMessage(w, i, deviceExists, sent, recorded);
            && x.now == w.now && x.queue == RemoveAt(w.queue, i)
            && x.commands == w.commands[m.id := x.commands[m.id]]
            && x.commands[m.id].createdAt == w.commands[m.id].createdAt
            && x.commands[m.id].scheduledFor == w.commands[m.id].scheduledFor
            && x.commands[m.id].runs == w.commands[m.id].runs + (if Postponed(m, w.now) then 0 else 1)
            && (Postponed(m, w.now) ==> !Terminal(x.commands[m.id].status))
            && (if Terminal(x.commands[m.id].status) then x.timers == w.timers
                else x.timers == w.timers + [HandlerTimer(w, m)])
            && (!Terminal(x.commands[m.id].status) && !Postponed(m, w.now) ==> m.retries > 1)
  {
  }

  /** The timer set for a message that is put off or retried. */
  function HandlerTimer(w: World, m: Message): Timer {
    if Postponed(m, w.now)
    then Timer(w.now + TimerDelay(m.scheduledFor.value - w.now), m.(scheduledFor := None))
    else Timer(w.now + TimerDelay(RetryDelay(m.retries - 1)), m.(retries := m.retries - 1))
  }

  lemma HandledCommand(w: World, i: nat, deviceExists: bool, sent: bool, recorded: bool, id: Id)
    requires Inv(w) && i < |w.queue| && id in w.commands
    ensures CommandOk(HandleMessage(w, i, deviceExists, sent, recorded), id)
  {
    OnlyCarrier(w, i);
    HandleEffect(w, i, deviceExists, sent, recorded);
    var m := w.queue[i];
    assert MessageOk(w, m) && CommandOk(w, id);
    CountAppend(w.timers, HandlerTimer(w, m), TimerOf(id));
  }

  lemma HandleKeeps(w: World, i: nat, deviceExists: bool, sent: bool, recorded: bool)
    requires Inv(w) && i < |w.queue|
    ensures Inv(HandleMessage(w, i, deviceExists, sent, recorded))
  {
    OnlyCarrier(w, i);
    HandleEffect(w, i, deviceExists, sent, recorded);
    var m := w.queue[i];
    var x := HandleMessage(w, i, deviceExists, sent, recorded);
    assert MessageOk(w, m);
    forall k | k in x.commands ensures CommandOk(x, k) {
      HandledCommand(w, i, deviceExists, sent, recorded, k);
    }
    forall k | k in x.queue ensures MessageOk(x, k) {
      assert MessageOk(w, k);
    }
    forall t | t in w.timers ensures MessageOk(x, t.message) {
      assert MessageOk(w, t.message);
    }
  }

  lemma StepKeeps(w: World, e: Event)
    requires Inv(w) && Enabled(w, e)
    ensures Inv(Next(w, e))
  {
    match e
    case Create(id, scheduledFor) => CreateKeeps(w, id, scheduledFor);
    case Handle(i, deviceExists, sent, recorded) => HandleKeeps(w, i, deviceExists, sent, recorded);
    case Fire(i) => FireKeeps(w, i);
    case Tick(ms) =>
      var x := Next(w, e);
      forall m | m in x.queue ensures MessageOk(x, m) {
        assert MessageOk(w, m);
      }
      forall t | t in x.timers ensures MessageOk(x, t.message) {
        assert MessageOk(w, t.message);
      }
      forall id | id in x.commands ensures CommandOk(x, id) {
        assert CommandOk(w, id);
      }
  }

  lemma {:induction false} RunKeeps(w: World, events: seq<Event>)
    requires Inv(w) && Legal(w, events)
    ensures Inv(Run(w, events))
    decreases |events|
  {
    if events != [] {
      StepKeeps(w, events[0]);
      RunKeeps(Next(w, events[0]), events[1..]);
    }
  }

  /** In every reachable state each unfinished command has exactly one carrier, whose retries and the
      runs so far make 3; a delivered or failed command has none and has run one to three times. */
  lemma OneCarrier(now: int, events: seq<Event>, id: Id)
    requires Legal(World(now, map[], [], []), events)
    requires id in Run(World(now, map[], [], []), events).commands
    ensures var w := Run(World(now, map[], [], []), events);
            var command := w.commands[id];
            && command.runs <= 3
            && (Terminal(command.status) ==> Carriers(w, id) == 0 && command.runs >= 1)
            && (!Terminal(command.status) ==> Carriers(w, id) == 1)
            && (forall m :: m in w.queue && m.id == id ==> command.runs + m.retries == 3)
            && (forall t :: t in w.timers && t.message.id == id ==> command.runs + t.message.retries == 3)
  {
    RunKeeps(World(now, map[], [], []), events);
    var w := Run(World(now, map[], [], []), events);
    assert CommandOk(w, id);
    assert forall m :: m in w.queue ==> MessageOk(w, m);
    assert forall t :: t in w.timers ==> MessageOk(w, t.message);
  }

  // ---- What the last state of a command means --------------------------------------

  /** The outcome of processing a message, by what the device table, the gateway and the command table answered and
      by the number of the run; a failed run number n is tried again after 2^n seconds. */
  lemma Outcome(w: World, i: nat, deviceExists: bool, sent: bool, recorded: bool)
    requires Inv(w) && i < |w.queue| && !Postponed(w.queue[i], w.now)
    ensures var x := HandleMessage(w, i, deviceExists, sent, recorded);
            var id := w.queue[i].id;
            && id in x.commands
            && (x.commands[id].status == DELIVERED <==> deviceExists && sent && recorded)
            && (x.commands[id].status == DELIVERED ==> x.commands[id].deliveredAt == Some(w.now))
            && (x.commands[id].status == FAILED <==> !deviceExists || (!(sent && recorded) && x.commands[id].runs == 3))
            && (x.commands[id].status == RETRYING <==> deviceExists && !(sent && recorded) && x.commands[id].runs < 3)
            && (x.commands[id].status == RETRYING ==>
                  x.timers != [] && x.timers[|x.timers| - 1].due == w.now + 1000 * Pow2(x.commands[id].runs))
  {
    assert MessageOk(w, w.queue[i]);
    OnlyCarrier(w, i);
    HandleEffect(w, i, deviceExists, sent, recorded);
    assert Pow2(1) == 2 && Pow2(2) == 4;
  }

  /** The event sends the command to its device. */
  predicate Sends(w: World, e: Event, id: Id)
    requires Enabled(w, e)
  {
    e.Handle? && w.queue[e.i].id == id && !Postponed(w.queue[e.i], w.now) && e.deviceExists && e.sent
  }

  predicate Delivered(w: World, id: Id) {
    id in w.commands && w.commands[id].status == DELIVERED
  }

  function CountSends(w: World, events: seq<Event>, id: Id): nat
    requires Legal(w, events)
    decreases |events|
  {
    if events == [] then 0 else (if Sends(w, events[0], id) then 1 else 0) + CountSends(Next(w, events[0]), events[1..], id)
  }

  /** The sends whose update to DELIVERED was lost. */
  function CountLost(w: World, events: seq<Event>, id: Id): nat
    requires Legal(w, events)
    decreases |events|
  {
    if events == [] then 0
    else (if Sends(w, events[0], id) && !events[0].recorded then 1 else 0) + CountLost(Next(w, events[0]), events[1..], id)
  }

  /** How many times the command has been processed. */
  function RunsOf(w: World, id: Id): nat {
    if id in w.commands then w.commands[id].runs else 0
  }

  lemma HandleDelivered(w: World, e: Event, id: Id)
    requires Inv(w) && e.Handle? && Enabled(w, e) && id == w.queue[e.i].id
    ensures !Delivered(w, id)
    ensures Delivered(Next(w, e), id) <==> Sends(w, e, id) && e.recorded
    ensures RunsOf(Next(w, e), id) >= RunsOf(w, id) + if Sends(w, e, id) then 1 else 0
  {
    OnlyCarrier(w, e.i);
    HandleEffect(w, e.i, e.deviceExists, e.sent, e.recorded);
    if !Postponed(w.queue[e.i], w.now) {
      Outcome(w, e.i, e.deviceExists, e.sent, e.recorded);
    }
  }

  lemma HandleElsewhere(w: World, e: Event, id: Id)
    requires Inv(w) && e.Handle? && Enabled(w, e) && id != w.queue[e.i].id
    ensures id in Next(w, e).commands <==> id in w.commands
    ensures id in w.commands ==> Next(w, e).commands[id] == w.commands[id]
  {
    OnlyCarrier(w, e.i);
    HandleEffect(w, e.i, e.deviceExists, e.sent, e.recorded);
  }

  lemma StepDelivered(w: World, e: Event, id: Id)
    requires Inv(w) && Enabled(w, e)
    ensures Delivered(Next(w, e), id) <==> Delivered(w, id) || (Sends(w, e, id) && e.recorded)
    ensures Sends(w, e, id) ==> !Delivered(w, id)
    ensures RunsOf(Next(w, e), id) >= RunsOf(w, id) + if Sends(w, e, id) then 1 else 0
  {
    if e.Handle? && w.queue[e.i].id == id {
      HandleDelivered(w, e, id);
    } else if e.Handle? {
      HandleElsewhere(w, e, id);
    }
  }

  lemma {:induction false} SendsCounted(w: World, events: seq<Event>, id: Id)
    requires Inv(w) && Legal(w, events)
    ensures CountSends(w, events, id) + (if Delivered(w, id) then 1 else 0)
         == CountLost(w, events, id) + if Delivered(Run(w, events), id) then 1 else 0
    ensures RunsOf(w, id) + CountSends(w, events, id) <= RunsOf(Run(w, events), id)
    decreases |events|
  {
    if events != [] {
      StepDelivered(w, events[0], id);
      StepKeeps(w, events[0]);
      SendsCounted(Next(w, events[0]), events[1..], id);
    }
  }

  /** Over every run a command is sent once if it ends up delivered, and once more for every send whose update to
      DELIVERED was lost, but never more than three times. */
  lemma DeliveredOnce(now: int, events: seq<Event>, id: Id)
    requires Legal(World(now, map[], [], []), events)
    ensures var start := World(now, map[], [], []);
            && CountSends(start, events, id) == CountLost(start, events, id) + (if Delivered(Run(start, events), id) then 1 else 0)
            && CountSends(start, events, id) <= 3
  {
    var start := World(now, map[], [], []);
    SendsCounted(start, events, id);
    RunKeeps(start, events);
    assert id in Run(start, events).commands ==> CommandOk(Run(start, events), id);
  }

  /** Putting an event before a run. */
  lemma RunCons(w: World, e: Event, rest: seq<Event>)
    requires Enabled(w, e) && Legal(Next(w, e), rest)
    ensures Legal(w, [e] + rest) && Run(w, [e] + rest) == Run(Next(w, e), rest)
    ensures forall id :: CountSends(w, [e] + rest, id) == (if Sends(w, e, id) then 1 else 0) + CountSends(Next(w, e), rest, id)
  {
    assert ([e] + rest)[1..] == rest;
  }

  /** One command, created at `created` and run `runs` times without success, whose message is in the queue. */
  function Waiting(created: int, now: int, id: Id, runs: nat): World {
    World(now, map[id := Command(created, None, if runs == 0 then PENDING else RETRYING, None, runs)],
          [Message(id, RETRIES - runs, None)], [])
  }

  /** The same command with its retry in a timer that was set at `since`. */
  function Retrying(created: int, now: int, since: int, id: Id, runs: nat): World {
    World(now, Waiting(created, now, id, runs + 1).commands, [],
          [Timer(since + 2000 * (runs + 1), Message(id, RETRIES - runs - 1, None))])
  }

  lemma LostSend(created: int, now: int, id: Id, runs: nat)
    requires runs < 2
    ensures Next(Waiting(created, now, id, runs), Handle(0, true, true, false)) == Retrying(created, now, now, id, runs)
  {
    assert RetryDelay(RETRIES - runs - 1) == 2000 * (runs + 1) by {
      assert Pow2(1) == 2 && Pow2(2) == 4;
    }
  }

  lemma TimerBack(created: int, since: int, id: Id, runs: nat)
    ensures var due := since + 2000 * (runs + 1);
            Next(Retrying(created, due, since, id, runs), Fire(0)) == Waiting(created, due, id, runs + 1)
  {
  }

  /** The command is sent, the update is lost, and the retry's timer puts the message back. */
  lemma LostRetry(created: int, now: int, id: Id, runs: nat, rest: seq<Event>) returns (events: seq<Event>)
    requires runs < 2
    requires Legal(Waiting(created, now + 2000 * (runs + 1), id, runs + 1), rest)
    ensures Legal(Waiting(created, now, id, runs), events)
    ensures CountSends(Waiting(created, now, id, runs), events, id)
         == 1 + CountSends(Waiting(created, now + 2000 * (runs + 1), id, runs + 1), rest, id)
  {
    var delay := 2000 * (runs + 1);
    var w := Waiting(created, now, id, runs);
    var handle := Handle(0, true, true, false);
    LostSend(created, now, id, runs);
    var w1 := Retrying(created, now, now, id, runs);
    var w2 := Retrying(created, now + delay, now, id, runs);
    assert Next(w1, Tick(delay)) == w2;
    TimerBack(created, now, id, runs);
    RunCons(w2, Fire(0), rest);
    RunCons(w1, Tick(delay), [Fire(0)] + rest);
    events := [Tick(delay)] + ([Fire(0)] + rest);
    RunCons(w, handle, events);
    events := [handle] + events;
  }

  lemma LastSend(created: int, now: int, id: Id) returns (events: seq<Event>)
    ensures Legal(Waiting(created, now, id, 2), events)
    ensures CountSends(Waiting(created, now, id, 2), events, id) == 1
  {
    var handle := Handle(0, true, true, false);
    var w := Waiting(created, now, id, 2);
    RunCons(w, handle, []);
    events := [handle] + [];
  }

  lemma FirstMessage(now: int, id: Id, rest: seq<Event>) returns (events: seq<Event>)
    requires Legal(Waiting(now, now, id, 0), rest)
    ensures Legal(World(now, map[], [], []), events)
    ensures CountSends(World(now, map[], [], []), events, id) == CountSends(Waiting(now, now, id, 0), rest, id)
  {
    var start := World(now, map[], [], []);
    assert Next(start, Create(id, None)) == Waiting(now, now, id, 0);
    RunCons(start, Create(id, None), rest);
    events := [Create(id, None)] + rest;
  }

  /** Some run sends a command three times, when the update to DELIVERED is lost each time. */
  lemma ThreeSends(now: int, id: Id) returns (events: seq<Event>)
    ensures Legal(World(now, map[], [], []), events)
    ensures CountSends(World(now, map[], [], []), events, id) == 3
  {
    events := LastSend(now, now + 6000, id);
    events := LostRetry(now, now + 2000, id, 1, events);
    events := LostRetry(now, now, id, 0, events);
    events := FirstMessage(now, id, events);
  }

  ghost predicate FailedAfterThree(w: World) {
    forall id :: id in w.commands && w.commands[id].status == FAILED ==> w.commands[id].runs == 3
  }

  lemma StepGivesUp(w: World, e: Event)
    requires Inv(w) && Enabled(w, e) && FailedAfterThree(w) && (e.Handle? ==> e.deviceExists)
    ensures FailedAfterThree(Next(w, e))
  {
    if e.Handle? {
      OnlyCarrier(w, e.i);
      HandleEffect(w, e.i, e.deviceExists, e.sent, e.recorded);
      if !Postponed(w.queue[e.i], w.now) {
        Outcome(w, e.i, e.deviceExists, e.sent, e.recorded);
      }
    }
  }

  /** As long as no device goes missing, a command fails only after its third run. */
  lemma {:induction false} GivesUpAfterThree(w: World, events: seq<Event>)
    requires Inv(w) && Legal(w, events) && FailedAfterThree(w)
    requires forall e :: e in events && e.Handle? ==> e.deviceExists
    ensures FailedAfterThree(Run(w, events))
    decreases |events|
  {
    if events != [] {
      var e := events[0];
      assert e in events;
      StepGivesUp(w, e);
      StepKeeps(w, e);
      GivesUpAfterThree(Next(w, e), events[1..]);
    }
  }

  // ---- Every run ends --------------------------------------------------------------

  /** What is left for a message to do: a retry counts four, a postponement two, a timer one. */
  function Weight(m: Message): nat {
    (if m.retries > 0 then 4 * m.retries else 0) + if m.scheduledFor.Some? then 2 else 0
  }

  function QueueWeight(queue: seq<Message>): nat {
    if queue == [] then 0 else Weight(queue[0]) + QueueWeight(queue[1..])
  }

  function TimersWeight(timers: seq<Timer>): nat {
    if timers == [] then 0 else Weight(timers[0].message) + 1 + TimersWeight(timers[1..])
  }

  function Measure(w: World): nat {
    QueueWeight(w.queue) + TimersWeight(w.timers)
  }

  lemma {:induction false} QueueWeightConcat(a: seq<Message>, b: seq<Message>)
    ensures QueueWeight(a + b) == QueueWeight(a) + QueueWeight(b)
  {
    if a == [] {
      assert a + b == b;
    } else {
      assert (a + b)[1..] == a[1..] + b;
      QueueWeightConcat(a[1..], b);
    }
  }

  lemma {:induction false} TimersWeightConcat(a: seq<Timer>, b: seq<Timer>)
    ensures TimersWeight(a + b) == TimersWeight(a) + TimersWeight(b)
  {
    if a == [] {
      assert a + b == b;
    } else {
      assert (a + b)[1..] == a[1..] + b;
      TimersWeightConcat(a[1..], b);
    }
  }

  lemma {:induction false} QueueWeightTaken(queue: seq<Message>, i: nat)
    requires i < |queue|
    ensures QueueWeight(queue) == QueueWeight(RemoveAt(queue, i)) + Weight(queue[i])
  {
    if i == 0 {
      assert RemoveAt(queue, i) == queue[1..];
    } else {
      QueueWeightTaken(queue[1..], i - 1);
      assert RemoveAt(queue, i)[0] == queue[0];
      assert RemoveAt(queue, i)[1..] == RemoveAt(queue[1..], i - 1);
    }
  }

  lemma {:induction false} TimersWeightTaken(timers: seq<Timer>, i: nat)
    requires i < |timers|
    ensures TimersWeight(timers) == TimersWeight(RemoveAt(timers, i)) + Weight(timers[i].message) + 1
  {
    if i == 0 {
      assert RemoveAt(timers, i) == timers[1..];
    } else {
      TimersWeightTaken(timers[1..], i - 1);
      assert RemoveAt(timers, i)[0] == timers[0];
      assert RemoveAt(timers, i)[1..] == RemoveAt(timers[1..], i - 1);
    }
  }

  predicate Moves(e: Event) {
    e.Handle? || e.Fire?
  }

  lemma StepMeasure(w: World, e: Event)
    requires Inv(w) && Enabled(w, e)
    ensures Moves(e) ==> Measure(Next(w, e)) < Measure(w)
    ensures e.Tick? ==> Measure(Next(w, e)) == Measure(w)
    ensures e.Create? ==> Measure(Next(w, e)) <= Measure(w) + 14
  {
    match e
    case Create(id, scheduledFor) =>
      QueueWeightConcat(w.queue, [Message(id, RETRIES, scheduledFor)]);
    case Handle(i, deviceExists, sent, recorded) =>
      QueueWeightTaken(w.queue, i);
      assert MessageOk(w, w.queue[i]);
      OnlyCarrier(w, i);
      HandleEffect(w, i, deviceExists, sent, recorded);
      TimersWeightConcat(w.timers, [HandlerTimer(w, w.queue[i])]);
    case Fire(i) =>
      TimersWeightTaken(w.timers, i);
      QueueWeightConcat(w.queue, [w.timers[i].message]);
    case Tick(ms) =>
  }

  function CountMoves(events: seq<Event>): nat {
    if events == [] then 0 else (if Moves(events[0]) then 1 else 0) + CountMoves(events[1..])
  }

  function CountCreates(events: seq<Event>): nat {
    if events == [] then 0 else (if events[0].Create? then 1 else 0) + CountCreates(events[1..])
  }

  /** Handler and timer steps are bounded: 14 for each command created, plus what was left at the start. */
  lemma {:induction false} MovesBounded(w: World, events: seq<Event>)
    requires Inv(w) && Legal(w, events)
    ensures CountMoves(events) + Measure(Run(w, events)) <= Measure(w) + 14 * CountCreates(events)
    decreases |events|
  {
    if events != [] {
      StepMeasure(w, events[0]);
      StepKeeps(w, events[0]);
      MovesBounded(Next(w, events[0]), events[1..]);
    }
  }

  ghost predicate AllFinished(w: World) {
    forall id :: id in w.commands ==> Terminal(w.commands[id].status)
  }

  /** Nothing gets stuck: from every reachable state, letting time pass and the handlers run
      finishes every command. */
  lemma {:induction false} CanFinish(w: World) returns (events: seq<Event>)
    requires Inv(w)
    ensures Legal(w, events) && CountCreates(events) == 0 && AllFinished(Run(w, events))
    decreases Measure(w)
  {
    if w.queue != [] {
      var e := Handle(0, true, true, true);
      StepMeasure(w, e);
      StepKeeps(w, e);
      var rest := CanFinish(Next(w, e));
      events := [e] + rest;
      assert events[1..] == rest;
    } else if w.timers != [] {
      var tick := Tick(Max(0, w.timers[0].due - w.now));
      var later := Next(w, tick);
      StepKeeps(w, tick);
      StepMeasure(w, tick);
      StepMeasure(later, Fire(0));
      StepKeeps(later, Fire(0));
      var rest := CanFinish(Next(later, Fire(0)));
      events := [tick, Fire(0)] + rest;
      assert events[1..] == [Fire(0)] + rest && ([Fire(0)] + rest)[1..] == rest;
    } else {
      events := [];
      forall id | id in w.commands ensures Terminal(w.commands[id].status) {
        assert CommandOk(w, id);
      }
    }
  }

  // ---- Scheduled commands are not early --------------------------------------------

  /** The command's time is near enough, when it is created, for one timer. */
  predicate Near(c: Command) {
    c.scheduledFor.Some? && c.scheduledFor.value - c.createdAt <= 2147483647
  }

  ghost predicate OnTime(w: World, id: Id)
    requires id in w.commands && Near(w.commands[id])
  {
    var c := w.commands[id];
    var s := c.scheduledFor.value;
    && c.createdAt <= w.now
    && (c.runs > 0 ==> s <= w.now)
    && (forall m :: m in w.queue && m.id == id ==>
          m.scheduledFor == Some(s) || (m.scheduledFor == None && s <= w.now))
    && (forall t :: t in w.timers && t.message.id == id ==>
          (t.message.scheduledFor == Some(s) && s <= w.now) || (t.message.scheduledFor == None && s <= t.due))
  }

  ghost predicate Punctual(w: World) {
    forall id :: id in w.commands && Near(w.commands[id]) ==> OnTime(w, id)
  }

  lemma CreatePunctual(w: World, id: Id, scheduledFor: Option<int>)
    requires Inv(w) && Punctual(w) && id !in w.commands
    ensures Punctual(CreateCommand(w, id, scheduledFor))
  {
    var x := CreateCommand(w, id, scheduledFor);
    NoCarrierOfUnknown(w, id);
    CountPositive(w.queue, MessageOf(id));
    CountPositive(w.timers, TimerOf(id));
    forall k | k in x.commands && Near(x.commands[k]) ensures OnTime(x, k) {
      if k == id {
        assert forall m :: m in w.queue && m.id == id ==> MessageOf(id)(m);
        assert forall t :: t in w.timers && t.message.id == id ==> TimerOf(id)(t);
      } else {
        assert OnTime(w, k);
      }
    }
  }

  lemma HandlePunctual(w: World, i: nat, deviceExists: bool, sent: bool, recorded: bool)
    requires Inv(w) && Punctual(w) && i < |w.queue|
    ensures Punctual(HandleMessage(w, i, deviceExists, sent, recorded))
  {
    var x := HandleMessage(w, i, deviceExists, sent, recorded);
    var m := w.queue[i];
    OnlyCarrier(w, i);
    HandleEffect(w, i, deviceExists, sent, recorded);
    assert m in w.queue;
    forall k | k in x.commands && Near(x.commands[k]) ensures OnTime(x, k) {
      assert OnTime(w, k);
    }
  }

  lemma FirePunctual(w: World, i: nat)
    requires Inv(w) && Punctual(w) && i < |w.timers| && w.timers[i].due <= w.now
    ensures Punctual(FireTimer(w, i))
  {
    var x := FireTimer(w, i);
    assert w.timers[i] in w.timers;
    forall k | k in x.commands && Near(x.commands[k]) ensures OnTime(x, k) {
      assert OnTime(w, k);
    }
  }

  lemma StepPunctual(w: World, e: Event)
    requires Inv(w) && Punctual(w) && Enabled(w, e)
    ensures Punctual(Next(w, e))
  {
    match e
    case Create(id, scheduledFor) => CreatePunctual(w, id, scheduledFor);
    case Handle(i, deviceExists, sent, recorded) => HandlePunctual(w, i, deviceExists, sent, recorded);
    case Fire(i) => FirePunctual(w, i);
    case Tick(ms) =>
      forall k | k in w.commands && Near(w.commands[k]) ensures OnTime(Next(w, e), k) {
        assert OnTime(w, k);
      }
  }

  lemma {:induction false} RunPunctual(w: World, events: seq<Event>)
    requires Inv(w) && Punctual(w) && Legal(w, events)
    ensures Punctual(Run(w, events))
    decreases |events|
  {
    if events != [] {
      StepPunctual(w, events[0]);
      StepKeeps(w, events[0]);
      RunPunctual(Next(w, events[0]), events[1..]);
    }
  }

  /** No run processes a command before its time, if that was at most 2147483647 ms ahead at creation. */
  lemma NeverEarly(now: int, events: seq<Event>, id: Id)
    requires Legal(World(now, map[], [], []), events)
    requires var w := Run(World(now, map[], [], []), events);
             id in w.commands && Near(w.commands[id]) && w.commands[id].runs > 0
    ensures var w := Run(World(now, map[], [], []), events);
            w.commands[id].scheduledFor.value <= w.now
  {
    RunPunctual(World(now, map[], [], []), events);
    assert OnTime(Run(World(now, map[], [], []), events), id);
  }

  /** Any time further ahead is missed by some run: the timer fires after one millisecond. */
  lemma EarlyWhenFar(w: World, id: Id, at: int) returns (events: seq<Event>)
    requires id !in w.commands && at - w.now > 2147483647
    ensures Legal(w, events)
    ensures var x := Run(w, events);
            id in x.commands && x.commands[id].scheduledFor == Some(at) && x.commands[id].runs > 0 && x.now < at
  {
    var n, k := |w.queue|, |w.timers|;
    var create, handle := Create(id, Some(at)), Handle(n, true, true, true);
    var w1 := Next(w, create);
    assert w1.queue[n] == Message(id, RETRIES, Some(at));
    var w2 := Next(w1, handle);
    assert w2.timers[k] == Timer(w.now + 1, Message(id, RETRIES, None));
    assert w2.queue == w.queue;
    var w3 := Next(w2, Tick(1));
    var w4 := Next(w3, Fire(k));
    assert w4.queue[n] == Message(id, RETRIES, None);
    events := [];
    RunCons(w4, handle, events);
    events := [handle] + events;
    RunCons(w3, Fire(k), events);
    events := [Fire(k)] + events;
    RunCons(w2, Tick(1), events);
    events := [Tick(1)] + events;
    RunCons(w1, handle, events);
    events := [handle] + events;
    RunCons(w, create, events);
    events := [create] + events;
  }
}
