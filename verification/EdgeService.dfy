/** The edge service: commands are rows updated in place; a poll marks its commands in bulk. */
module EdgeService {
  import opened Options
  import opened EdgeCommands

  datatype Edge = Edge(userId: Id, tenantId: Id, token: Id)

  class EdgeService {
    var edges: map<Id, Edge>
    var table: seq<Command>
    ghost const watched: Id
    ghost var log: seq<Command>

    ghost function State(): World
      reads this
    {
      World(table, log)
    }

    constructor (edges: map<Id, Edge>, ghost watched: Id)
      ensures State() == World([], []) && this.edges == edges && this.watched == watched
    {
      this.edges, table, log, this.watched := edges, [], [], watched;
    }

    method DispatchCommand(edge: Id, userId: Id, tenantId: Id, id: Id, now: int) returns (r: Result<()>)
      requires Enabled(State(), Dispatch(edge, id, now))
      modifies this`table
      ensures r.Ok? <==> edge in edges && edges[edge].userId == userId && edges[edge].tenantId == tenantId
      ensures State() == if r.Ok? then Next(watched, old(State()), Dispatch(edge, id, now)) else old(State())
      ensures old(Inv(watched, State())) ==> Inv(watched, State())
    {
      if edge !in edges || edges[edge].userId != userId || edges[edge].tenantId != tenantId {
        return Err(NotFound);
      }
      if Inv(watched, State()) {
        StepKeeps(watched, State(), Dispatch(edge, id, now));
      }
      table := table + [Command(id, edge, now, PENDING)];
      r := Ok(());
    }

    method GetPendingCommands(edge: Id, token: Id) returns (r: Result<seq<Command>>)
      modifies this`table, this`log
      ensures r.Ok? <==> edge in edges && edges[edge].token == token
      ensures r.Ok? ==> r.value == HandOut(old(table), edge)
      ensures State() == if r.Ok? then Next(watched, old(State()), Poll(edge)) else old(State())
      ensures old(Inv(watched, State())) ==> Inv(watched, State())
    {
      if edge !in edges || edges[edge].token != token {
        return Err(Unauthorized);
      }
      if Inv(watched, State()) {
        StepKeeps(watched, State(), Poll(edge));
      }
      var commands := Pending(table, edge);
      var returned := HandOut(table, edge);
      if |commands| > 0 {
        table := MarkDelivered(table, IdsOf(commands));
      } else {
        assert MarkDelivered(table, IdsOf(commands)) == table;
      }
      if edge == watched {
        log := log + returned;
      }
      r := Ok(returned);
    }

    method AckCommand(edge: Id, id: Id, token: Id, executed: bool) returns (r: Result<()>)
      modifies this`table
      ensures r.Ok? <==> edge in edges && edges[edge].token == token && exists c :: c in old(table) && c.id == id && c.edgeId == edge
      ensures State() == if r.Ok? then Next(watched, old(State()), Ack(edge, id, executed)) else old(State())
      ensures old(Inv(watched, State())) ==> Inv(watched, State())
    {
      if edge !in edges || edges[edge].token != token {
        return Err(Unauthorized);
      }
      if Inv(watched, State()) {
        StepKeeps(watched, State(), Ack(edge, id, executed));
      }
      var i := 0;
      while i < |table| && !(table[i].id == id && table[i].edgeId == edge)
        invariant i <= |table|
        invariant forall j :: 0 <= j < i ==> !(table[j].id == id && table[j].edgeId == edge)
      {
        i := i + 1;
      }
      if i == |table| {
        return Err(NotFound);
      }
      FirstMatch(table, edge, id, executed, i);
      table := table[i := table[i].(status := if executed then EXECUTED else FAILED)];
      r := Ok(());
    }
  }

  lemma {:induction false} FirstMatch(table: seq<Command>, edge: Id, id: Id, executed: bool, i: nat)
    requires i < |table| && table[i].id == id && table[i].edgeId == edge
    requires forall j :: 0 <= j < i ==> !(table[j].id == id && table[j].edgeId == edge)
    ensures Acknowledge(table, edge, id, executed)
         == table[i := table[i].(status := if executed then EXECUTED else FAILED)]
  {
    if i > 0 {
      FirstMatch(table[1..], edge, id, executed, i - 1);
    }
  }
}
