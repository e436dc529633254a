/** What each step of the command protocol writes, column by column. */
module CommandSteps {
  import opened Options
  import opened Counting
  import opened DeviceCommands

  /** The command starts with a budget of three and one message, SCHEDULED if it has a time and else PENDING. */
  lemma CreatedExactly(w: World, id: Id, scheduledFor: Option<int>)
    requires id !in w.commands
    ensures var x := Next(w, Create(id, scheduledFor));
            && x.commands.Keys == w.commands.Keys + {id} && (forall k :: k in w.commands ==> x.commands[k] == w.commands[k])
            && (scheduledFor == None ==> x.commands[id].status == PENDING)
            && (scheduledFor != None ==> x.commands[id].status == SCHEDULED)
            && x.commands[id].createdAt == w.now && x.commands[id].scheduledFor == scheduledFor
            && x.commands[id].deliveredAt == None && x.commands[id].runs == 0
            && x.queue == w.queue + [Message(id, 3, scheduledFor)] && x.timers == w.timers && x.now == w.now
  {
  }

  ghost predicate Taken(before: seq<Message>, after: seq<Message>, i: nat)
    requires i < |before|
  {
    after == before[..i] + before[i + 1..]
  }

  /** A message whose time is still to come waits in a timer without its time, up to that time if the timer can
      wait so long and else for a millisecond; its command is left alone. */
  lemma PutOffExactly(w: World, i: nat, deviceExists: bool, sent: bool, recorded: bool, at: int)
    requires i < |w.queue| && w.queue[i].scheduledFor == Some(at) && at > w.now
    ensures var x := Next(w, Handle(i, deviceExists, sent, recorded));
            var m := w.queue[i];
            && Taken(w.queue, x.queue, i) && x.commands == w.commands && x.now == w.now
            && x.timers == w.timers + [Timer(if at - w.now <= 2147483647 then at else w.now + 1, Message(m.id, m.retries, None))]
  {
  }

  /** Only this command's status, delivery time and number of runs changed. */
  ghost predicate Ran(w: World, x: World, id: Id, status: Status) {
    && x.commands.Keys == w.commands.Keys && (forall k :: k in w.commands && k != id ==> x.commands[k] == w.commands[k])
    && id in w.commands && x.commands[id].runs == w.commands[id].runs + 1 && x.commands[id].status == status
    && x.commands[id].createdAt == w.commands[id].createdAt && x.commands[id].scheduledFor == w.commands[id].scheduledFor
  }

  /** Any other message is processed at once: DELIVERED now if it is sent and recorded; FAILED if the device is
      missing or this was the third run; else RETRYING, with one retry less in a timer of two seconds after the first
      run and four after the second. */
  lemma ProcessedExactly(w: World, i: nat, deviceExists: bool, sent: bool, recorded: bool)
    requires Inv(w) && i < |w.queue| && (w.queue[i].scheduledFor == None || w.queue[i].scheduledFor.value <= w.now)
    ensures var x := Next(w, Handle(i, deviceExists, sent, recorded));
            var m := w.queue[i];
            && m.id in w.commands && Taken(w.queue, x.queue, i) && x.now == w.now
            && var run := w.commands[m.id].runs + 1;
               var delivered := deviceExists && sent && recorded;
               var failed := !delivered && (!deviceExists || run == 3);
               && (delivered ==> Ran(w, x, m.id, DELIVERED) && x.commands[m.id].deliveredAt == Some(w.now))
               && (!delivered ==> x.commands[m.id].deliveredAt == w.commands[m.id].deliveredAt)
               && (failed ==> Ran(w, x, m.id, FAILED))
               && (delivered || failed ==> x.timers == w.timers)
               && (!delivered && !failed ==>
                     && Ran(w, x, m.id, RETRYING)
                     && x.timers == w.timers + [Timer(w.now + (if run == 1 then 2000 else 4000), Message(m.id, 3 - run, m.scheduledFor))])
  {
    assert MessageOk(w, w.queue[i]);
    OnlyCarrier(w, i);
    HandleEffect(w, i, deviceExists, sent, recorded);
    Outcome(w, i, deviceExists, sent, recorded);
    if w.queue[i].retries > 1 {
      RetryTimes(w, w.queue[i]);
    }
  }

  lemma RetryTimes(w: World, m: Message)
    requires m.retries in {2, 3} && !Postponed(m, w.now)
    ensures HandlerTimer(w, m) == Timer(w.now + (if m.retries == 3 then 2000 else 4000), Message(m.id, m.retries - 1, m.scheduledFor))
  {
    assert Pow2(1) == 2 && Pow2(2) == 4;
  }

  /** A due timer puts its message, unchanged, at the end of the queue. */
  lemma FiredExactly(w: World, i: nat)
    requires i < |w.timers| && w.timers[i].due <= w.now
    ensures var x := Next(w, Fire(i));
            && x.queue == w.queue + [w.timers[i].message] && x.timers == w.timers[..i] + w.timers[i + 1..]
            && x.commands == w.commands && x.now == w.now
  {
  }

  /** A timer may fire once it is due and no earlier, and a message may be taken at any time. */
  lemma EnabledExactly(w: World, i: nat)
    ensures Enabled(w, Fire(i)) <==> i < |w.timers| && w.timers[i].due <= w.now
    ensures forall a, b, c :: Enabled(w, Handle(i, a, b, c)) <==> i < |w.queue|
  {
  }
}
