/** The command queue of an edge: dispatch, poll and acknowledgement. */
module EdgeCommands {
  import opened Options
  import opened Counting
  import opened Ordering

  datatype Status = PENDING | DELIVERED | EXECUTED | FAILED

  datatype Command = Command(id: Id, edgeId: Id, issuedAt: int, status: Status)

  function IsPending(edge: Id): Command -> bool {
    (c: Command) => c.edgeId == edge && c.status == PENDING
  }

  function IssuedAt(): Command -> int {
    (c: Command) => c.issuedAt
  }

  function IdsOf(commands: seq<Command>): set<Id> {
    set c | c in commands :: c.id
  }

  function MarkDelivered(table: seq<Command>, ids: set<Id>): seq<Command> {
    seq(|table|, i requires 0 <= i < |table| => if table[i].id in ids then table[i].(status := DELIVERED) else table[i])
  }

  /** The pending commands of the edge, oldest first. */
  function Pending(table: seq<Command>, edge: Id): seq<Command> {
    OrderBy(Filter(table, IsPending(edge)), IssuedAt())
  }

  /** The commands as a poll returns them. */
  function HandOut(table: seq<Command>, edge: Id): seq<Command> {
    var commands := Pending(table, edge);
    seq(|commands|, i requires 0 <= i < |commands| => commands[i].(status := DELIVERED))
  }

  function Acknowledge(table: seq<Command>, edge: Id, id: Id, executed: bool): seq<Command> {
    if table == [] then []
    else if table[0].id == id && table[0].edgeId == edge
    then [table[0].(status := if executed then EXECUTED else FAILED)] + table[1..]
    else [table[0]] + Acknowledge(table[1..], edge, id, executed)
  }

  // ---- Runs ------------------------------------------------------------------------

  datatype Event =
    | Dispatch(edge: Id, id: Id, at: int)
    | Poll(edge: Id)
    | Ack(edge: Id, id: Id, executed: bool)

  /** `log` is history: what the polls of one watched edge returned, one after the other. */
  datatype World = World(table: seq<Command>, log: seq<Command>)

  /** Ids are fresh and issue times grow. */
  predicate Enabled(w: World, e: Event) {
    e.Dispatch? ==> forall c :: c in w.table ==> c.id != e.id && c.issuedAt < e.at
  }

  function Next(watched: Id, w: World, e: Event): World {
    match e
    case Dispatch(edge, id, at) => w.(table := w.table + [Command(id, edge, at, PENDING)])
    case Poll(edge) =>
      var commands := Pending(w.table, edge);
      World(MarkDelivered(w.table, IdsOf(commands)),
            if edge == watched then w.log + HandOut(w.table, edge) else w.log)
    case Ack(edge, id, executed) => w.(table := Acknowledge(w.table, edge, id, executed))
  }

  predicate Legal(watched: Id, w: World, events: seq<Event>)
    decreases |events|
  {
    events != [] ==> Enabled(w, events[0]) && Legal(watched, Next(watched, w, events[0]), events[1..])
  }

  function Run(watched: Id, w: World, events: seq<Event>): World
    decreases |events|
  {
    if events == [] then w else Run(watched, Next(watched, w, events[0]), events[1..])
  }

  // ---- What every step keeps -------------------------------------------------------

  /** A row changes its status and nothing else, and never back to PENDING. */
  predicate MovesOn(before: Command, after: Command) {
    after == before.(status := after.status) && (after.status == PENDING ==> before.status == PENDING)
  }

  ghost predicate Grows(before: seq<Command>, after: seq<Command>) {
    |before| <= |after| && forall i :: 0 <= i < |before| ==> MovesOn(before[i], after[i])
  }

  ghost predicate IssueOrder(commands: seq<Command>) {
    forall i, j :: 0 <= i < j < |commands| ==> commands[i].issuedAt < commands[j].issuedAt
  }

  ghost predicate Handed(log: seq<Command>, c: Command) {
    exists h :: h in log && h.id == c.id
  }

  /** A command that was handed out still has its row, no longer pending. */
  ghost predicate RowsOfLog(table: seq<Command>, log: seq<Command>) {
    forall h :: h in log ==> exists c :: c in table && c == h.(status := c.status) && c.status != PENDING
  }

  ghost predicate Inv(watched: Id, w: World) {
    && IssueOrder(w.table)
    && (forall i, j :: 0 <= i < j < |w.table| ==> w.table[i].id != w.table[j].id)
    && IssueOrder(w.log)
    && RowsOfLog(w.table, w.log)
    && (forall h :: h in w.log ==> h.edgeId == watched && h.status == DELIVERED)
    && (forall c :: c in w.table && c.edgeId == watched ==>
          && (c.status == PENDING ==> forall h :: h in w.log ==> h.issuedAt < c.issuedAt)
          && (c.status == DELIVERED ==> Handed(w.log, c)))
  }

  lemma {:induction false} AcknowledgedRows(table: seq<Command>, edge: Id, id: Id, executed: bool)
    ensures |Acknowledge(table, edge, id, executed)| == |table|
    ensures forall i :: 0 <= i < |table| ==>
              var c := Acknowledge(table, edge, id, executed)[i];
              c == table[i] || (c == table[i].(status := c.status) && c.status in {EXECUTED, FAILED})
  {
    if table != [] {
      AcknowledgedRows(table[1..], edge, id, executed);
    }
  }

  lemma {:induction false} FilterInOrder(table: seq<Command>, p: Command -> bool)
    requires IssueOrder(table)
    ensures IssueOrder(Filter(table, p))
  {
    if table != [] {
      FilterInOrder(table[1..], p);
      FilterMembers(table[1..], p);
      forall c | c in Filter(table[1..], p) ensures table[0].issuedAt < c.issuedAt {
        assert c in table[1..];
      }
    }
  }

  /** On a table in issue order a poll returns the pending commands in that order. */
  lemma PendingInOrder(table: seq<Command>, edge: Id)
    requires IssueOrder(table)
    ensures IssueOrder(Pending(table, edge))
    ensures forall c :: c in Pending(table, edge) <==> c in table && IsPending(edge)(c)
  {
    FilterInOrder(table, IsPending(edge));
    FilterMembers(table, IsPending(edge));
    AlreadySorted(Filter(table, IsPending(edge)), IssuedAt());
  }

  lemma StepGrows(watched: Id, w: World, e: Event)
    requires Inv(watched, w)
    ensures Grows(w.table, Next(watched, w, e).table)
  {
    match e
    case Dispatch(edge, id, at) =>
    case Poll(edge) =>
    case Ack(edge, id, executed) =>
      AcknowledgedRows(w.table, edge, id, executed);
      var after := Acknowledge(w.table, edge, id, executed);
      forall i | 0 <= i < |w.table| ensures MovesOn(w.table[i], after[i]) {
        assert after[i] == w.table[i] || after[i].status in {EXECUTED, FAILED};
      }
  }

  /** The rows a poll marks are the pending rows of its edge. */
  lemma PollMarks(w: World, watched: Id, edge: Id, i: nat)
    requires Inv(watched, w) && i < |w.table|
    ensures w.table[i].id in IdsOf(Pending(w.table, edge)) <==> IsPending(edge)(w.table[i])
  {
    PendingInOrder(w.table, edge);
    if c :| c in Pending(w.table, edge) && c.id == w.table[i].id {
      var j :| 0 <= j < |w.table| && w.table[j] == c;
      assert i == j;
    }
  }

  lemma RowsOfLogKept(before: seq<Command>, after: seq<Command>, log: seq<Command>)
    requires RowsOfLog(before, log) && Grows(before, after)
    ensures RowsOfLog(after, log)
  {
    forall h | h in log ensures exists c :: c in after && c == h.(status := c.status) && c.status != PENDING {
      var c :| c in before && c == h.(status := c.status) && c.status != PENDING;
      var i :| 0 <= i < |before| && before[i] == c;
      assert after[i] in after && MovesOn(before[i], after[i]);
    }
  }

  lemma DispatchKeeps(watched: Id, w: World, edge: Id, id: Id, at: int)
    requires Inv(watched, w) && Enabled(w, Dispatch(edge, id, at))
    ensures Inv(watched, Next(watched, w, Dispatch(edge, id, at)))
  {
    var x := Next(watched, w, Dispatch(edge, id, at));
    RowsOfLogKept(w.table, x.table, w.log);
    forall h | h in w.log ensures h.issuedAt < at {
      var c :| c in w.table && c == h.(status := c.status);
      assert c.issuedAt < at;
    }
  }

  lemma AckedRow(table: seq<Command>, edge: Id, id: Id, executed: bool, c: Command)
    requires c in Acknowledge(table, edge, id, executed) && c.status in {PENDING, DELIVERED}
    ensures c in table
  {
    AcknowledgedRows(table, edge, id, executed);
    var i :| 0 <= i < |table| && Acknowledge(table, edge, id, executed)[i] == c;
    assert table[i] in table;
  }

  lemma AckKeeps(watched: Id, w: World, edge: Id, id: Id, executed: bool)
    requires Inv(watched, w)
    ensures Inv(watched, Next(watched, w, Ack(edge, id, executed)))
  {
    var x := Next(watched, w, Ack(edge, id, executed));
    StepGrows(watched, w, Ack(edge, id, executed));
    AcknowledgedRows(w.table, edge, id, executed);
    assert forall i :: 0 <= i < |w.table| ==> x.table[i].id == w.table[i].id && x.table[i].issuedAt == w.table[i].issuedAt;
    RowsOfLogKept(w.table, x.table, w.log);
    forall c | c in x.table && c.edgeId == watched
      ensures c.status == PENDING ==> forall h :: h in x.log ==> h.issuedAt < c.issuedAt
      ensures c.status == DELIVERED ==> Handed(x.log, c)
    {
      if c.status in {PENDING, DELIVERED} {
        AckedRow(w.table, edge, id, executed, c);
      }
    }
  }

  /** A poll hands out each pending command of its edge, marked delivered, and nothing else. */
  lemma HandOutMembers(table: seq<Command>, edge: Id)
    requires IssueOrder(table)
    ensures IssueOrder(HandOut(table, edge))
    ensures forall h :: h in HandOut(table, edge) ==>
              h.status == DELIVERED && h.edgeId == edge && h.(status := PENDING) in table
    ensures forall c :: c in table && IsPending(edge)(c) ==> c.(status := DELIVERED) in HandOut(table, edge)
  {
    var commands, handed := Pending(table, edge), HandOut(table, edge);
    PendingInOrder(table, edge);
    forall i | 0 <= i < |handed|
      ensures handed[i].status == DELIVERED && handed[i].edgeId == edge && handed[i].(status := PENDING) in table
    {
      assert commands[i] in commands;
      assert handed[i].(status := PENDING) == commands[i];
    }
    forall c | c in table && IsPending(edge)(c) ensures c.(status := DELIVERED) in handed {
      assert c in commands;
      var i :| 0 <= i < |commands| && commands[i] == c;
      assert handed[i] == c.(status := DELIVERED);
    }
  }

  lemma PolledRows(watched: Id, w: World, edge: Id)
    requires Inv(watched, w)
    ensures var table := Next(watched, w, Poll(edge)).table;
            && |table| == |w.table|
            && forall i :: 0 <= i < |table| ==>
                 table[i] == if IsPending(edge)(w.table[i]) then w.table[i].(status := DELIVERED) else w.table[i]
  {
    forall i | 0 <= i < |w.table|
      ensures w.table[i].id in IdsOf(Pending(w.table, edge)) <==> IsPending(edge)(w.table[i])
    {
      PollMarks(w, watched, edge, i);
    }
  }

  lemma PollLogOrder(watched: Id, w: World)
    requires Inv(watched, w)
    ensures IssueOrder(w.log + HandOut(w.table, watched))
  {
    HandOutMembers(w.table, watched);
    var added := HandOut(w.table, watched);
    forall i, j | 0 <= i < |w.log| && 0 <= j < |added| ensures w.log[i].issuedAt < added[j].issuedAt {
      assert w.log[i] in w.log && added[j] in added;
      assert added[j].(status := PENDING) in w.table;
    }
  }

  lemma PollRowsOfLog(watched: Id, w: World)
    requires Inv(watched, w)
    ensures RowsOfLog(Next(watched, w, Poll(watched)).table, HandOut(w.table, watched))
  {
    var x := Next(watched, w, Poll(watched));
    PolledRows(watched, w, watched);
    HandOutMembers(w.table, watched);
    forall h | h in HandOut(w.table, watched)
      ensures exists c :: c in x.table && c == h.(status := c.status) && c.status != PENDING
    {
      var i :| 0 <= i < |w.table| && w.table[i] == h.(status := PENDING);
      assert x.table[i] == h;
    }
  }

  lemma PollLogKeeps(watched: Id, w: World, edge: Id)
    requires Inv(watched, w)
    ensures var x := Next(watched, w, Poll(edge));
            IssueOrder(x.log) && RowsOfLog(x.table, x.log) && forall h :: h in x.log ==> h.edgeId == watched && h.status == DELIVERED
  {
    var x := Next(watched, w, Poll(edge));
    StepGrows(watched, w, Poll(edge));
    RowsOfLogKept(w.table, x.table, w.log);
    if edge == watched {
      PollLogOrder(watched, w);
      PollRowsOfLog(watched, w);
      HandOutMembers(w.table, watched);
    }
  }

  lemma PollRowsKeep(watched: Id, w: World, edge: Id, c: Command)
    requires Inv(watched, w)
    requires c in Next(watched, w, Poll(edge)).table && c.edgeId == watched
    ensures var log := Next(watched, w, Poll(edge)).log;
            && (c.status == PENDING ==> forall h :: h in log ==> h.issuedAt < c.issuedAt)
            && (c.status == DELIVERED ==> Handed(log, c))
  {
    var x := Next(watched, w, Poll(edge));
    PolledRows(watched, w, edge);
    var i :| 0 <= i < |x.table| && x.table[i] == c;
    assert w.table[i] in w.table;
    HandOutMembers(w.table, watched);
    if c.status == DELIVERED {
      if edge == watched && w.table[i].status == PENDING {
        assert c in x.log;
      } else {
        var h :| h in w.log && h.id == c.id;
        assert h in x.log;
      }
    }
  }

  lemma PollKeeps(watched: Id, w: World, edge: Id)
    requires Inv(watched, w)
    ensures Inv(watched, Next(watched, w, Poll(edge)))
  {
    var x := Next(watched, w, Poll(edge));
    PolledRows(watched, w, edge);
    PollLogKeeps(watched, w, edge);
    forall c | c in x.table && c.edgeId == watched
      ensures c.status == PENDING ==> forall h :: h in x.log ==> h.issuedAt < c.issuedAt
      ensures c.status == DELIVERED ==> Handed(x.log, c)
    {
      PollRowsKeep(watched, w, edge, c);
    }
  }

  lemma StepKeeps(watched: Id, w: World, e: Event)
    requires Inv(watched, w) && Enabled(w, e)
    ensures Inv(watched, Next(watched, w, e))
  {
    match e
    case Dispatch(edge, id, at) => DispatchKeeps(watched, w, edge, id, at);
    case Poll(edge) => PollKeeps(watched, w, edge);
    case Ack(edge, id, executed) => AckKeeps(watched, w, edge, id, executed);
  }

  lemma {:induction false} RunKeeps(watched: Id, w: World, events: seq<Event>)
    requires Inv(watched, w) && Legal(watched, w, events)
    ensures Inv(watched, Run(watched, w, events))
    ensures Grows(w.table, Run(watched, w, events).table)
    decreases |events|
  {
    if events != [] {
      var x := Next(watched, w, events[0]);
      StepKeeps(watched, w, events[0]);
      StepGrows(watched, w, events[0]);
      RunKeeps(watched, x, events[1..]);
      var y := Run(watched, x, events[1..]);
      forall i | 0 <= i < |w.table| ensures MovesOn(w.table[i], y.table[i]) {
        assert MovesOn(w.table[i], x.table[i]) && MovesOn(x.table[i], y.table[i]);
      }
    }
  }

  /** Over every run: the watched edge's polls, one after the other, list commands in issue order, each at
      most once; a pending command has not been handed out, a delivered one has. */
  lemma HandedOutOnce(watched: Id, events: seq<Event>)
    requires Legal(watched, World([], []), events)
    ensures var w := Run(watched, World([], []), events);
            && (forall i, j :: 0 <= i < j < |w.log| ==> w.log[i].id != w.log[j].id && w.log[i].issuedAt < w.log[j].issuedAt)
            && (forall c :: c in w.table && c.edgeId == watched ==>
                  && (c.status == PENDING ==> !Handed(w.log, c))
                  && (c.status == DELIVERED ==> Handed(w.log, c)))
  {
    RunKeeps(watched, World([], []), events);
    var w := Run(watched, World([], []), events);
    forall i, j | 0 <= i < j < |w.log| ensures w.log[i].id != w.log[j].id {
      if w.log[i].id == w.log[j].id {
        SameRow(watched, w, w.log[i], w.log[j]);
      }
    }
    forall c | c in w.table && c.edgeId == watched && c.status == PENDING ensures !Handed(w.log, c) {
      if h :| h in w.log && h.id == c.id {
        var d :| d in w.table && d == h.(status := d.status) && d.status != PENDING;
        OneRowPerId(watched, w, c, d);
      }
    }
  }

  lemma OneRowPerId(watched: Id, w: World, c: Command, d: Command)
    requires Inv(watched, w) && c in w.table && d in w.table && c.id == d.id
    ensures c == d
  {
    var i :| 0 <= i < |w.table| && w.table[i] == c;
    var j :| 0 <= j < |w.table| && w.table[j] == d;
  }

  lemma SameRow(watched: Id, w: World, g: Command, h: Command)
    requires Inv(watched, w) && g in w.log && h in w.log && g.id == h.id
    ensures g.issuedAt == h.issuedAt
  {
    var c :| c in w.table && c == g.(status := c.status);
    var d :| d in w.table && d == h.(status := d.status);
    OneRowPerId(watched, w, c, d);
  }

  // ---- What each event writes ------------------------------------------------------

  lemma DispatchedExactly(watched: Id, w: World, edge: Id, id: Id, at: int)
    ensures Next(watched, w, Dispatch(edge, id, at)).table == w.table + [Command(id, edge, at, PENDING)]
  {
  }

  /** A poll returns the edge's pending commands, and only those, as DELIVERED in issue order, and its table has them
      so; every other row is as it was. */
  lemma PolledExactly(watched: Id, w: World, edge: Id)
    requires Inv(watched, w)
    ensures var after, handed := Next(watched, w, Poll(edge)).table, HandOut(w.table, edge);
            && |after| == |w.table|
            && (forall i :: 0 <= i < |after| ==>
                  after[i] == if w.table[i].edgeId == edge && w.table[i].status == PENDING
                              then Command(w.table[i].id, edge, w.table[i].issuedAt, DELIVERED) else w.table[i])
            && (forall i, j :: 0 <= i < j < |handed| ==> handed[i].issuedAt < handed[j].issuedAt)
            && (forall h :: h in handed <==> h.edgeId == edge && h.status == DELIVERED && Command(h.id, edge, h.issuedAt, PENDING) in w.table)
  {
    PolledRows(watched, w, edge);
    HandOutMembers(w.table, edge);
    var handed := HandOut(w.table, edge);
    forall h: Command | h.edgeId == edge && h.status == DELIVERED && Command(h.id, edge, h.issuedAt, PENDING) in w.table ensures h in handed {
      assert Command(h.id, edge, h.issuedAt, PENDING).(status := DELIVERED) == h;
    }
    forall h | h in handed ensures Command(h.id, edge, h.issuedAt, PENDING) in w.table {
      assert h.(status := PENDING) == Command(h.id, edge, h.issuedAt, PENDING);
    }
  }

  /** An acknowledgement makes the edge's command with the id EXECUTED or FAILED, and no other row changes. */
  lemma {:induction false} AckedExactly(table: seq<Command>, edge: Id, id: Id, executed: bool, i: nat)
    requires i < |table| && forall j, k :: 0 <= j < k < |table| ==> table[j].id != table[k].id
    ensures |Acknowledge(table, edge, id, executed)| == |table|
    ensures Acknowledge(table, edge, id, executed)[i]
         == if table[i].id == id && table[i].edgeId == edge
            then Command(id, edge, table[i].issuedAt, if executed then EXECUTED else FAILED) else table[i]
  {
    AcknowledgedRows(table, edge, id, executed);
    if i > 0 && !(table[0].id == id && table[0].edgeId == edge) {
      AckedExactly(table[1..], edge, id, executed, i - 1);
    }
  }
}
