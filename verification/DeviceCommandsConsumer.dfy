/** The consumer and the service behind it, changing command rows, queue and timers step by step. */
module DeviceCommandsConsumer {
  import opened Options
  import opened Counting
  import opened DeviceCommands

  class DeviceCommandsConsumer {
    var now: int
    var commands: map<Id, Command>
    var queue: seq<Message>
    var timers: seq<Timer>

    ghost function State(): World
      reads this
    {
      World(now, commands, queue, timers)
    }

    constructor (now: int)
      ensures State() == World(now, map[], [], []) && Inv(State())
    {
      this.now, commands, queue, timers := now, map[], [], [];
    }

    /** Saves the command with its budget of three and publishes its first message. */
    method CreateCommand(id: Id, deviceFound: bool, scheduledFor: Option<int>) returns (r: Result<()>)
      requires id !in commands
      modifies this`commands, this`queue
      ensures r == if deviceFound then Ok(()) else Err(NotFound)
      ensures State() == if deviceFound then Next(old(State()), Create(id, scheduledFor)) else old(State())
      ensures old(Inv(State())) ==> Inv(State())
    {
      if !deviceFound {
        return Err(NotFound);
      }
      if Inv(State()) {
        CreateKeeps(State(), id, scheduledFor);
      }
      commands := commands[id := Command(now, scheduledFor, if scheduledFor.Some? then SCHEDULED else PENDING, None, 0)];
      queue := queue + [Message(id, RETRIES, scheduledFor)];
      r := Ok(());
    }

    method UpdateCommandStatus(id: Id, status: Status)
      modifies this`commands
      ensures State() == UpdateStatus(old(State()), id, status)
    {
      if id in commands {
        commands := commands[id := commands[id].(status := status)];
        if status == DELIVERED {
          commands := commands[id := commands[id].(deliveredAt := Some(now))];
        }
      }
    }

    method StartTimer(delay: int, m: Message)
      modifies this`timers
      ensures State() == SetTimeout(old(State()), delay, m)
    {
      timers := timers + [Timer(now + TimerDelay(delay), m)];
    }

    method HandleCommandFailure(m: Message)
      modifies this`commands, this`timers
      ensures State() == DeviceCommands.HandleCommandFailure(old(State()), m)
    {
      var retriesLeft := m.retries - 1;
      if retriesLeft > 0 {
        StartTimer(RetryDelay(retriesLeft), m.(retries := retriesLeft));
        UpdateCommandStatus(m.id, RETRYING);
      } else {
        UpdateCommandStatus(m.id, FAILED);
      }
    }

    method ProcessCommand(m: Message, deviceExists: bool, sent: bool, recorded: bool)
      modifies this`commands, this`timers
      ensures State() == DeviceCommands.ProcessCommand(old(State()), m, deviceExists, sent, recorded)
    {
      if m.id in commands {
        commands := commands[m.id := commands[m.id].(runs := commands[m.id].runs + 1)];
      }
      if !deviceExists {
        UpdateCommandStatus(m.id, FAILED);
        return;
      }
      UpdateCommandStatus(m.id, SENDING);
      if sent && recorded {
        UpdateCommandStatus(m.id, DELIVERED);
      } else {
        HandleCommandFailure(m);
      }
    }

    /** Takes message i off the queue; it is put off, or the command is processed now. */
    method HandleMessage(i: nat, deviceExists: bool, sent: bool, recorded: bool)
      requires i < |queue|
      modifies this`commands, this`queue, this`timers
      ensures State() == Next(old(State()), Handle(i, deviceExists, sent, recorded))
      ensures old(Inv(State())) ==> Inv(State())
    {
      if Inv(State()) {
        HandleKeeps(State(), i, deviceExists, sent, recorded);
      }
      var m := queue[i];
      queue := RemoveAt(queue, i);
      if m.scheduledFor.Some? && m.scheduledFor.value > now {
        StartTimer(m.scheduledFor.value - now, m.(scheduledFor := None));
      } else {
        ProcessCommand(m, deviceExists, sent, recorded);
      }
    }

    /** The callback of a due timer sends its message. */
    method TimerFires(i: nat)
      requires i < |timers| && timers[i].due <= now
      modifies this`queue, this`timers
      ensures State() == Next(old(State()), Fire(i))
      ensures old(Inv(State())) ==> Inv(State())
    {
      if Inv(State()) {
        FireKeeps(State(), i);
      }
      queue := queue + [timers[i].message];
      timers := RemoveAt(timers, i);
    }
  }
}
