/** refreshTokens with its look-up and its save as separate steps. */
module TokenRace {
  import opened Options
  import opened Counting
  import RefreshTokens
  import opened ClaimRace

  /** The string has a row that is neither revoked nor expired. */
  predicate Open(rows: seq<RefreshTokens.Token>, s: Id, now: int) {
    var found := First(rows, RefreshTokens.Named(s));
    found.Some? && RefreshTokens.IsValid(found.value, now)
  }

  lemma DeadIsClosed(w: RefreshTokens.World, s: Id, now: int)
    requires RefreshTokens.Dead(w, s)
    ensures !Open(w.rows, s, now)
  {
    FirstFound(w.rows, RefreshTokens.Named(s));
  }

  /** A refresh whose look-up finds a valid token and an active user revokes the string for good. */
  lemma RefreshCloses(w: RefreshTokens.World, e: RefreshTokens.Event, lifetime: nat)
    requires RefreshTokens.Inv(w) && e.Redeem? && RefreshTokens.Enabled(w, e)
    requires Open(w.rows, e.s, e.now) && e.active
    ensures RefreshTokens.Dead(RefreshTokens.Next(w, e, lifetime), e.s)
  {
    var found := First(w.rows, RefreshTokens.Named(e.s)).value;
    FirstFound(w.rows, RefreshTokens.Named(e.s));
    RefreshTokens.StepSpares(w, e, lifetime, found);
  }

  /** A refresh by itself is such a run with one request: the row's state and the number of redemptions agree. */
  lemma RefreshIsRun(w: RefreshTokens.World, e: RefreshTokens.Event, lifetime: nat) returns (events: seq<Event>)
    requires RefreshTokens.Inv(w) && e.Redeem? && RefreshTokens.Enabled(w, e)
    ensures var start := State(Open(w.rows, e.s, e.now), {}, 0);
            var granted := RefreshTokens.CheckRefresh(w.rows, e.s, e.now, e.active, e.session, e.sessionToken).Ok?;
            && Legal(start, events, 1)
            && Run(start, events)
            == State(Open(RefreshTokens.Next(w, e, lifetime).rows, e.s, e.now), {}, if granted then 1 else 0)
  {
    if !Open(w.rows, e.s, e.now) {
      events := [];
    } else {
      var end := if !e.active then Drop(0) else if e.session && e.sessionToken then Claim(0) else Withdraw(0);
      if e.active {
        RefreshCloses(w, e, lifetime);
        DeadIsClosed(RefreshTokens.Next(w, e, lifetime), e.s, e.now);
      }
      OneRequest(end);
      events := [Read(0), end];
    }
  }

  lemma OneRequest(end: Event)
    requires end in {Claim(0), Withdraw(0), Drop(0)}
    ensures Legal(START, [Read(0), end], 1) && Run(START, [Read(0), end]) == State(end == Drop(0), {}, if end == Claim(0) then 1 else 0)
  {
    var held := State(true, {0}, 0);
    assert Next(START, Read(0)) == held;
    assert held.holders - {0} == {};
    assert [Read(0), end][1..] == [end] && [end][1..] == [];
    assert Legal(Next(held, end), [], 1) && Run(Next(held, end), []) == Next(held, end);
    assert Legal(held, [end], 1) && Run(held, [end]) == Next(held, end);
  }
}
