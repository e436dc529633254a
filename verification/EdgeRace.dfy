/** One edge command while polls, each a look-up and a bulk update, and acknowledgements interleave. */
module EdgeRace {
  import opened Options
  import opened EdgeCommands
  import ClaimRace

  /** `polls` have read the command as pending and have not updated it yet; `handed` counts the polls that
      returned it. */
  datatype Row = Row(status: Status, polls: set<Id>, handed: nat)

  datatype Turn =
    | Read(id: Id)              // the poll's look-up
    | Update(id: Id)            // its bulk update, after which it returns
    | Acked(executed: bool)

  predicate Allowed(r: Row, t: Turn, k: nat) {
    match t
    case Read(id) => id !in r.polls && |r.polls| < k
    case Update(id) => id in r.polls
    case Acked(_) => true
  }

  function Result(executed: bool): Status {
    if executed then EXECUTED else FAILED
  }

  function Take(r: Row, t: Turn): Row {
    match t
    case Read(id) => if r.status == PENDING then r.(polls := r.polls + {id}) else r
    case Update(id) => Row(DELIVERED, r.polls - {id}, r.handed + 1)
    case Acked(executed) => r.(status := Result(executed))
  }

  ghost predicate Possible(r: Row, turns: seq<Turn>, k: nat)
    decreases |turns|
  {
    turns != [] ==> Allowed(r, turns[0], k) && Possible(Take(r, turns[0]), turns[1..], k)
  }

  ghost function TakeAll(r: Row, turns: seq<Turn>): Row
    decreases |turns|
  {
    if turns == [] then r else TakeAll(Take(r, turns[0]), turns[1..])
  }

  const FRESH := Row(PENDING, {}, 0)

  // ---- How often a command is handed out -------------------------------------------

  function Abstract(r: Row): ClaimRace.State {
    ClaimRace.State(r.status == PENDING, r.polls, r.handed)
  }

  function AbstractTurn(t: Turn): ClaimRace.Event {
    match t
    case Read(id) => ClaimRace.Read(id)
    case Update(id) => ClaimRace.Claim(id)
    case Acked(_) => ClaimRace.Close
  }

  function AbstractTurns(turns: seq<Turn>): seq<ClaimRace.Event> {
    if turns == [] then [] else [AbstractTurn(turns[0])] + AbstractTurns(turns[1..])
  }

  /** The command is a row that polls claim and acknowledgements close. */
  lemma {:induction false} TurnsAreRun(r: Row, turns: seq<Turn>, k: nat)
    requires Possible(r, turns, k)
    ensures ClaimRace.Legal(Abstract(r), AbstractTurns(turns), k)
    ensures ClaimRace.Run(Abstract(r), AbstractTurns(turns)) == Abstract(TakeAll(r, turns))
    decreases |turns|
  {
    if turns != [] {
      TurnsAreRun(Take(r, turns[0]), turns[1..], k);
      assert ClaimRace.Next(Abstract(r), AbstractTurn(turns[0])) == Abstract(Take(r, turns[0]));
      assert AbstractTurns(turns)[1..] == AbstractTurns(turns[1..]);
    }
  }

  /** With at most k polls at work on it, a command is handed out at most k times. */
  lemma HandedOutAtMost(turns: seq<Turn>, k: nat)
    requires Possible(FRESH, turns, k)
    ensures TakeAll(FRESH, turns).handed <= k
  {
    TurnsAreRun(FRESH, turns, k);
    ClaimRace.ClaimBound(AbstractTurns(turns), k);
  }

  // ---- Whether an acknowledgement lasts --------------------------------------------

  ghost predicate NoAck(turns: seq<Turn>) {
    forall t :: t in turns ==> !t.Acked?
  }

  /** However the polls go on, the acknowledged status stays. */
  ghost predicate Lasts(r: Row, k: nat) {
    forall turns :: Possible(r, turns, k) && NoAck(turns) ==> TakeAll(r, turns).status == r.status
  }

  lemma {:induction false} Settled(r: Row, turns: seq<Turn>, k: nat)
    requires r.status != PENDING && r.polls == {} && Possible(r, turns, k) && NoAck(turns)
    ensures TakeAll(r, turns) == r
    decreases |turns|
  {
    if turns != [] {
      assert turns[0] in turns;
      assert Take(r, turns[0]) == r;
      Settled(r, turns[1..], k);
    }
  }

  /** An acknowledgement lasts if and only if no poll is between its look-up and its update; else that poll's
      update overwrites it with DELIVERED. */
  lemma AckLasts(r: Row, executed: bool, k: nat)
    ensures Lasts(Take(r, Acked(executed)), k) <==> r.polls == {}
  {
    var x := Take(r, Acked(executed));
    if r.polls == {} {
      forall turns | Possible(x, turns, k) && NoAck(turns) ensures TakeAll(x, turns).status == x.status {
        Settled(x, turns, k);
      }
    } else {
      var id :| id in r.polls;
      var turns := [Update(id)];
      assert turns[1..] == [];
      assert Possible(Take(x, Update(id)), [], k) && TakeAll(Take(x, Update(id)), []) == Take(x, Update(id));
      assert Possible(x, turns, k) && NoAck(turns) && TakeAll(x, turns).status == DELIVERED;
    }
  }

  // ---- The sequential service ------------------------------------------------------

  /** What a whole poll or acknowledgement does to one row is such a run with nothing else at work. */
  lemma StepIsRun(watched: Id, w: World, e: Event, i: nat) returns (turns: seq<Turn>)
    requires Inv(watched, w) && !e.Dispatch? && i < |w.table|
    ensures |Next(watched, w, e).table| == |w.table|
    ensures var start := Row(w.table[i].status, {}, 0);
            && Possible(start, turns, 1)
            && TakeAll(start, turns).status == Next(watched, w, e).table[i].status
            && TakeAll(start, turns).polls == {}
            && (forall t :: t in turns && t.Acked? ==> e.Ack? && t.executed == e.executed)
            && (TakeAll(start, turns).handed == 1 <==> e.Poll? && IsPending(e.edge)(w.table[i]))
  {
    var start := Row(w.table[i].status, {}, 0);
    if e.Poll? {
      PolledRows(watched, w, e.edge);
      if IsPending(e.edge)(w.table[i]) {
        WholePoll();
        turns := [Read(0), Update(0)];
      } else {
        turns := [];
      }
    } else {
      AckedExactly(w.table, e.edge, e.id, e.executed, i);
      if w.table[i].id == e.id && w.table[i].edgeId == e.edge {
        turns := [Acked(e.executed)];
        assert turns[1..] == [];
      } else {
        turns := [];
      }
    }
  }

  lemma WholePoll()
    ensures Possible(FRESH, [Read(0), Update(0)], 1) && TakeAll(FRESH, [Read(0), Update(0)]) == Row(DELIVERED, {}, 1)
  {
    var held := Row(PENDING, {0}, 0);
    assert Take(FRESH, Read(0)) == held && Take(held, Update(0)) == Row(DELIVERED, {}, 1);
    assert [Read(0), Update(0)][1..] == [Update(0)] && [Update(0)][1..] == [];
    assert Possible(held, [Update(0)], 1) && TakeAll(held, [Update(0)]) == Row(DELIVERED, {}, 1);
  }
}
