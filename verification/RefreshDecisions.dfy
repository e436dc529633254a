/** Exactly which refreshes succeed, whatever the user and session stores answer, and what each event writes. */
module RefreshDecisions {
  import opened Options
  import opened Counting
  import opened RefreshTokens

  // ---- refreshTokens ---------------------------------------------------------------

  /** A row with the string is there, unrevoked, and its time is not over. */
  ghost predicate Redeemable(rows: seq<Token>, s: Id, now: int) {
    exists t :: t in rows && t.token == s && !t.revoked && now <= t.expiresAt
  }

  /** The string is good and its user is active, so that the session store is asked. */
  ghost predicate Reaches(w: World, e: Event)
    requires e.Redeem?
  {
    Redeemable(w.rows, e.s, e.now) && e.active
  }

  ghost predicate Granted(w: World, e: Event)
    requires e.Redeem?
  {
    Reaches(w, e) && e.session && e.sessionToken
  }

  lemma FirstNamed(rows: seq<Token>, s: Id)
    requires Distinct(rows)
    ensures forall t :: t in rows && t.token == s ==> First(rows, Named(s)) == Some(t)
    ensures (forall t :: t in rows ==> t.token != s) ==> First(rows, Named(s)) == None
  {
    forall t | t in rows && t.token == s {
      FoundByName(rows, t);
    }
    CountPositive(rows, Named(s));
    FirstFound(rows, Named(s));
  }

  /** The call succeeds if and only if the string is redeemable, its user is active, there is a session, and the
      session knows the string; its answer is the string's row. */
  lemma RefreshDecided(w: World, e: Event)
    requires Inv(w) && e.Redeem?
    ensures var r := CheckRefresh(w.rows, e.s, e.now, e.active, e.session, e.sessionToken);
            && (r.Ok? <==> Granted(w, e)) && (r.Err? ==> r.error == Unauthorized)
            && (r.Ok? ==> r.value in w.rows && r.value.token == e.s)
  {
    FirstNamed(w.rows, e.s);
    FirstFound(w.rows, Named(e.s));
  }

  /** The rows with p are revoked, the others are as they were, and none comes or goes. */
  ghost predicate RevokesExactly(before: seq<Token>, after: seq<Token>, p: Token -> bool) {
    && |after| == |before|
    && forall i :: 0 <= i < |before| ==>
         && after[i].token == before[i].token && after[i].userId == before[i].userId
         && after[i].createdAt == before[i].createdAt && after[i].expiresAt == before[i].expiresAt
         && (after[i].revoked <==> before[i].revoked || p(before[i]))
  }

  /** A refusal before the session store is asked writes nothing; a later one revokes the string's row and issues
      nothing. The string counts as redeemed exactly after a success. */
  lemma RefusedRefresh(w: World, e: Event, lifetime: nat)
    requires Inv(w) && e.Redeem? && !Granted(w, e)
    ensures !Reaches(w, e) ==> Next(w, e, lifetime).rows == w.rows
    ensures Reaches(w, e) ==> RevokesExactly(w.rows, Next(w, e, lifetime).rows, (t: Token) => t.token == e.s)
    ensures Next(w, e, lifetime).redeemed == w.redeemed
  {
    RefreshDecided(w, e);
    FirstNamed(w.rows, e.s);
    FirstFound(w.rows, Named(e.s));
  }

  /** One unrevoked row with the string, of the user, from now until its lifetime is over, and no other with it. */
  ghost predicate OneNew(rows: seq<Token>, s: Id, user: Id, now: int, lifetime: nat) {
    && (exists t :: t in rows && t.token == s && t.userId == user && t.createdAt == now && t.expiresAt == now + lifetime && !t.revoked)
    && (forall i, j :: 0 <= i < j < |rows| && rows[i].token == s ==> rows[j].token != s)
  }

  /** Every other row was there before, at most revoked meanwhile. */
  ghost predicate OthersOld(before: seq<Token>, after: seq<Token>, s: Id) {
    forall t :: t in after && t.token != s ==>
      exists u :: u in before && u.token == t.token && u.userId == t.userId && u.createdAt == t.createdAt
                  && u.expiresAt == t.expiresAt && (u.revoked ==> t.revoked)
  }

  lemma IssueDone(rows: seq<Token>, user: Id, s: Id, now: int, lifetime: nat)
    requires Distinct(rows + [Token(s, user, now, now + lifetime, false)])
    ensures OneNew(Issue(rows, user, s, now, lifetime), s, user, now, lifetime)
    ensures OthersOld(rows, Issue(rows, user, s, now, lifetime), s)
  {
    var newest := Token(s, user, now, now + lifetime, false);
    var after := Issue(rows, user, s, now, lifetime);
    assert newest in after by {
      IssueKeepsNewest(rows, user, s, now, lifetime);
    }
    CleanupOnly(rows + [newest], user, now);
    OldAndNew(rows, newest, after);
  }

  lemma OldAndNew(rows: seq<Token>, newest: Token, after: seq<Token>)
    requires OnlyRevokes(rows + [newest], after)
    ensures OthersOld(rows, after, newest.token)
  {
    forall t | t in after && t.token != newest.token
      ensures exists u :: u in rows && u.token == t.token && u.userId == t.userId && u.createdAt == t.createdAt
                          && u.expiresAt == t.expiresAt && (u.revoked ==> t.revoked)
    {
      var u :| u in rows + [newest] && t == u.(revoked := t.revoked) && (u.revoked ==> t.revoked);
      assert u in rows;
    }
  }

  /** A success issues exactly one new row to the string's user, leaves the old string dead, and every other row
      is an old one. */
  lemma GrantedRefresh(w: World, e: Event, lifetime: nat, t: Token)
    requires Inv(w) && e.Redeem? && Enabled(w, e) && Granted(w, e)
    requires t in w.rows && t.token == e.s
    ensures var after := Next(w, e, lifetime).rows;
            && OneNew(after, e.newToken, t.userId, e.now, lifetime) && OthersOld(w.rows, after, e.newToken)
            && (forall u :: u in after && u.token == e.s ==> u.revoked)
    ensures Next(w, e, lifetime).redeemed == w.redeemed + [e.s]
  {
    GrantedIssues(w, e, lifetime, t);
    RevokedThenIssued(w, e.s, t.userId, e.newToken, e.now, lifetime);
    GrantedKills(w, e, lifetime, t);
  }

  lemma RevokedThenIssued(w: World, s: Id, user: Id, newToken: Id, now: int, lifetime: nat)
    requires Inv(w) && newToken !in w.issued && forall t :: t in w.rows ==> t.createdAt < now
    ensures var after := Issue(RevokeIf(w.rows, Named(s)), user, newToken, now, lifetime);
            OneNew(after, newToken, user, now, lifetime) && OthersOld(w.rows, after, newToken)
  {
    var revoked := RevokeIf(w.rows, Named(s));
    RevokeOnly(w.rows, Named(s));
    RevokedNames(w, revoked, now);
    DistinctIssue(w.(rows := revoked), user, newToken, now, lifetime);
    IssueDone(revoked, user, newToken, now, lifetime);
    OldThroughRevoke(w.rows, revoked, Issue(revoked, user, newToken, now, lifetime), newToken);
  }

  lemma RevokedNames(w: World, revoked: seq<Token>, now: int)
    requires OnlyRevokes(w.rows, revoked) && Names(w.rows) <= w.issued && forall t :: t in w.rows ==> t.createdAt < now
    ensures Names(revoked) <= w.issued && forall t :: t in revoked ==> t.createdAt < now
  {
    forall t | t in revoked ensures t.token in w.issued && t.createdAt < now {
      var u :| u in w.rows && t == u.(revoked := t.revoked) && (u.revoked ==> t.revoked);
      assert u.token in Names(w.rows);
    }
  }

  /** A success is a revocation followed by an issue. */
  lemma GrantedIssues(w: World, e: Event, lifetime: nat, t: Token)
    requires Inv(w) && e.Redeem? && Granted(w, e) && t in w.rows && t.token == e.s
    ensures First(w.rows, Named(e.s)) == Some(t) && !t.revoked && e.now <= t.expiresAt
    ensures Next(w, e, lifetime).rows == Issue(RevokeIf(w.rows, Named(e.s)), t.userId, e.newToken, e.now, lifetime)
    ensures Next(w, e, lifetime).redeemed == w.redeemed + [e.s]
  {
    RefreshDecided(w, e);
    FirstNamed(w.rows, e.s);
  }

  lemma GrantedKills(w: World, e: Event, lifetime: nat, t: Token)
    requires Inv(w) && e.Redeem? && Enabled(w, e) && Granted(w, e) && t in w.rows && t.token == e.s
    ensures forall u :: u in Next(w, e, lifetime).rows && u.token == e.s ==> u.revoked
  {
    GrantedIssues(w, e, lifetime, t);
    StepSpares(w, e, lifetime, t);
  }

  lemma OldThroughRevoke(rows: seq<Token>, revoked: seq<Token>, after: seq<Token>, s: Id)
    requires OnlyRevokes(rows, revoked) && OthersOld(revoked, after, s)
    ensures OthersOld(rows, after, s)
  {
    forall t | t in after && t.token != s
      ensures exists u :: u in rows && u.token == t.token && u.userId == t.userId && u.createdAt == t.createdAt
                          && u.expiresAt == t.expiresAt && (u.revoked ==> t.revoked)
    {
      var v :| v in revoked && v.token == t.token && v.userId == t.userId && v.createdAt == t.createdAt
               && v.expiresAt == t.expiresAt && (v.revoked ==> t.revoked);
      var u :| u in rows && v == u.(revoked := v.revoked) && (u.revoked ==> v.revoked);
    }
  }

  // ---- The other events ------------------------------------------------------------

  lemma LoginDone(w: World, user: Id, newToken: Id, now: int, lifetime: nat)
    requires Inv(w) && Enabled(w, Login(user, newToken, now))
    ensures var after := Next(w, Login(user, newToken, now), lifetime).rows;
            OneNew(after, newToken, user, now, lifetime) && OthersOld(w.rows, after, newToken)
  {
    DistinctIssue(w, user, newToken, now, lifetime);
    IssueDone(w.rows, user, newToken, now, lifetime);
  }

  /** A log-out revokes the caller's own row with the string; the others revoke every row of the user. */
  lemma RevocationsDone(w: World, s: Id, user: Id, lifetime: nat)
    ensures RevokesExactly(w.rows, Next(w, Logout(s, user), lifetime).rows, (t: Token) => t.token == s && t.userId == user)
    ensures RevokesExactly(w.rows, Next(w, RevokeAll(user), lifetime).rows, (t: Token) => t.userId == user)
  {
  }
}
