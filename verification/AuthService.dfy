/** The token part of the auth service: rows created, revoked and deleted in sequence. */
module AuthService {
  import opened Options
  import opened Counting
  import opened RefreshTokens
  import opened RefreshDecisions

  /** Revoking some rows leaves the others where they are. */
  lemma RevokedElsewhere(rows: seq<Token>, p: Token -> bool)
    requires forall t: Token :: p(t) == p(t.(revoked := true))
    ensures forall t :: !p(t) ==> (t in RevokeIf(rows, p) <==> t in rows)
  {
    var after := RevokeIf(rows, p);
    forall t | !p(t) ensures t in after <==> t in rows {
      if i :| 0 <= i < |rows| && rows[i] == t {
        assert after[i] == t;
      }
      if i :| 0 <= i < |after| && after[i] == t {
        assert p(rows[i]) == p(rows[i].(revoked := true));
        assert rows[i] == t;
      }
    }
  }

  class AuthService {
    var rows: seq<Token>
    const lifetime: nat
    ghost var issued: set<Id>
    ghost var redeemed: seq<Id>

    ghost function State(): World
      reads this
    {
      World(rows, issued, redeemed)
    }

    constructor (lifetime: nat)
      ensures State() == World([], {}, []) && Inv(State()) && this.lifetime == lifetime
    {
      this.lifetime := lifetime;
      rows, issued, redeemed := [], {}, [];
    }

    method CleanupExpiredTokens(user: Id, now: int)
      modifies this`rows
      ensures rows == Cleanup(old(rows), user, now)
    {
      rows := Filter(rows, Not(Expired(user, now)));
      var validTokens := Current(rows, user);
      if |validTokens| > CAP {
        rows := RevokeIf(rows, In(Names(validTokens[CAP..])));
      }
    }

    method SaveToken(user: Id, newToken: Id, now: int)
      modifies this`rows
      ensures rows == Issue(old(rows), user, newToken, now, lifetime)
    {
      rows := rows + [Token(newToken, user, now, now + lifetime, false)];
      CleanupExpiredTokens(user, now);
    }

    /** A log-in: a new token row, then the clean-up. */
    method GenerateAuthResponse(user: Id, newToken: Id, now: int)
      requires Inv(State()) && Enabled(State(), Login(user, newToken, now))
      modifies this`rows, this`issued
      ensures State() == Next(old(State()), Login(user, newToken, now), lifetime) && Inv(State())
    {
      StepKeeps(State(), Login(user, newToken, now), lifetime);
      issued := issued + {newToken};
      SaveToken(user, newToken, now);
    }

    method RefreshTokens(s: Id, newToken: Id, now: int, active: bool, session: bool, sessionToken: bool) returns (r: Result<()>)
      requires Inv(State()) && Enabled(State(), Redeem(s, newToken, now, active, session, sessionToken))
      modifies this`rows, this`issued, this`redeemed
      ensures r.Ok? <==> old(Redeemable(rows, s, now)) && active && session && sessionToken
      ensures r.Err? ==> r.error == Unauthorized
      ensures r.Ok? ==> s !in old(redeemed) && redeemed == old(redeemed) + [s]
      ensures State() == Next(old(State()), Redeem(s, newToken, now, active, session, sessionToken), lifetime) && Inv(State())
    {
      StepKeeps(State(), Redeem(s, newToken, now, active, session, sessionToken), lifetime);
      RefreshDecided(State(), Redeem(s, newToken, now, active, session, sessionToken));
      if s in redeemed {
        RedeemedRefused(State(), s);
      }
      issued := issued + {newToken};
      var found := First(rows, Named(s));
      if found.None? || !IsValid(found.value, now) || !active {
        return Err(Unauthorized);
      }
      var token := found.value;
      rows := RevokeIf(rows, Named(s));
      if !session || !sessionToken {
        return Err(Unauthorized);
      }
      redeemed := redeemed + [s];
      SaveToken(token.userId, newToken, now);
      r := Ok(());
    }

    method LogOut(s: Id, user: Id)
      requires Inv(State())
      modifies this`rows
      ensures State() == Next(old(State()), Logout(s, user), lifetime) && Inv(State())
      ensures Count(rows, Both(NamedOf(s, user), Unrevoked(user))) == 0
      ensures forall t :: !NamedOf(s, user)(t) ==> (t in rows <==> t in old(rows))
    {
      StepKeeps(State(), Logout(s, user), lifetime);
      ghost var before := rows;
      rows := RevokeIf(rows, NamedOf(s, user));
      CountPositive(rows, Both(NamedOf(s, user), Unrevoked(user)));
      RevokedElsewhere(before, NamedOf(s, user));
    }

    /** logoutAll, and what resetPassword and changePassword do to the tokens. */
    method LogoutAll(user: Id)
      requires Inv(State())
      modifies this`rows
      ensures State() == Next(old(State()), RevokeAll(user), lifetime) && Inv(State())
      ensures Count(rows, Unrevoked(user)) == 0
      ensures forall t: Token :: t.userId != user ==> (t in rows <==> t in old(rows))
    {
      StepKeeps(State(), RevokeAll(user), lifetime);
      RevokedElsewhere(rows, OfUser(user));
      rows := RevokeIf(rows, OfUser(user));
      CountPositive(rows, Unrevoked(user));
    }
  }
}
