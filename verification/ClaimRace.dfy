/** A row that several requests read while it is open and then close, each in two steps: how many of them can
    take it for their own. */
module ClaimRace {
  import opened Options

  /** `holders` are the requests that have read the row as open and have not written yet; `claims` is history. */
  datatype State = State(open: bool, holders: set<Id>, claims: nat)

  datatype Event =
    | Read(id: Id)       // a request that finds the row closed ends here
    | Claim(id: Id)      // the row is closed and the request succeeds
    | Withdraw(id: Id)   // the row is closed and the request fails
    | Drop(id: Id)       // the request fails without writing
    | Close              // something else closes the row

  /** At most k requests hold the row at a time. */
  predicate Enabled(s: State, e: Event, k: nat) {
    match e
    case Read(id) => id !in s.holders && |s.holders| < k
    case Close => true
    case _ => e.id in s.holders
  }

  function Next(s: State, e: Event): State {
    match e
    case Read(id) => if s.open then s.(holders := s.holders + {id}) else s
    case Claim(id) => State(false, s.holders - {id}, s.claims + 1)
    case Withdraw(id) => State(false, s.holders - {id}, s.claims)
    case Drop(id) => s.(holders := s.holders - {id})
    case Close => s.(open := false)
  }

  ghost predicate Legal(s: State, events: seq<Event>, k: nat)
    decreases |events|
  {
    events != [] ==> Enabled(s, events[0], k) && Legal(Next(s, events[0]), events[1..], k)
  }

  ghost function Run(s: State, events: seq<Event>): State
    decreases |events|
  {
    if events == [] then s else Run(Next(s, events[0]), events[1..])
  }

  const START := State(true, {}, 0)

  ghost predicate Bounded(s: State, k: nat) {
    s.claims + |s.holders| <= k && (s.open ==> s.claims == 0)
  }

  lemma {:induction false} RunBounded(s: State, events: seq<Event>, k: nat)
    requires Bounded(s, k) && Legal(s, events, k)
    ensures Bounded(Run(s, events), k)
    decreases |events|
  {
    if events != [] {
      RunBounded(Next(s, events[0]), events[1..], k);
    }
  }

  /** With at most k requests between their read and their write, the row is claimed at most k times; one request
      at a time, at most once. */
  lemma ClaimBound(events: seq<Event>, k: nat)
    requires Legal(START, events, k)
    ensures Run(START, events).claims <= k
  {
    RunBounded(START, events, k);
  }

  // ---- The bound is attained -------------------------------------------------------

  lemma {:induction false} AppendEvent(s: State, events: seq<Event>, e: Event, k: nat)
    requires Legal(s, events, k) && Enabled(Run(s, events), e, k)
    ensures Legal(s, events + [e], k) && Run(s, events + [e]) == Next(Run(s, events), e)
    decreases |events|
  {
    if events == [] {
      assert [] + [e] == [e] && [e][1..] == [];
    } else {
      AppendEvent(Next(s, events[0]), events[1..], e, k);
      assert (events + [e])[1..] == events[1..] + [e];
    }
  }

  ghost predicate Held(s: State, from: nat, to: nat) {
    (forall id :: id in s.holders <==> from <= id < to) && |s.holders| == to - from
  }

  lemma ReadAll(k: nat) returns (events: seq<Event>)
    ensures Legal(START, events, k)
    ensures var s := Run(START, events); s.open && s.claims == 0 && Held(s, 0, k)
  {
    events := [];
    var i := 0;
    while i < k
      invariant i <= k && Legal(START, events, k)
      invariant var s := Run(START, events); s.open && s.claims == 0 && Held(s, 0, i)
    {
      AppendEvent(START, events, Read(i), k);
      events := events + [Read(i)];
      i := i + 1;
    }
  }

  /** For every k some run claims the row exactly k times. */
  lemma BoundAttained(k: nat) returns (events: seq<Event>)
    ensures Legal(START, events, k) && Run(START, events).claims == k
  {
    events := ReadAll(k);
    var i := 0;
    while i < k
      invariant i <= k && Legal(START, events, k)
      invariant var s := Run(START, events); s.claims == i && Held(s, i, k)
    {
      AppendEvent(START, events, Claim(i), k);
      events := events + [Claim(i)];
      i := i + 1;
    }
  }
}
