/** Refresh-token rows: issue, redeem, revoke and clean up, with a cap of five per user. */
module RefreshTokens {
  import opened Options
  import opened Counting
  import opened Ordering

  /** `token` is the random string, unique among the rows. */
  datatype Token = Token(token: Id, userId: Id, createdAt: int, expiresAt: int, revoked: bool)

  const CAP := 5

  predicate IsValid(t: Token, now: int) {
    !t.revoked && !(now > t.expiresAt)
  }

  function OfUser(user: Id): Token -> bool {
    (t: Token) => t.userId == user
  }

  function Unrevoked(user: Id): Token -> bool {
    (t: Token) => t.userId == user && !t.revoked
  }

  function Expired(user: Id, now: int): Token -> bool {
    (t: Token) => t.userId == user && t.expiresAt < now
  }

  function Named(s: Id): Token -> bool {
    (t: Token) => t.token == s
  }

  /** createdAt: 'DESC' */
  function NewestFirst(): Token -> int {
    (t: Token) => -t.createdAt
  }

  function Names(rows: seq<Token>): set<Id> {
    set t | t in rows :: t.token
  }

  function RevokeIf(rows: seq<Token>, p: Token -> bool): seq<Token> {
    seq(|rows|, i requires 0 <= i < |rows| => if p(rows[i]) then rows[i].(revoked := true) else rows[i])
  }

  function In(names: set<Id>): Token -> bool {
    (t: Token) => t.token in names
  }

  // ---- Operations ------------------------------------------------------------------

  function NotExpired(rows: seq<Token>, user: Id, now: int): seq<Token> {
    Filter(rows, Not(Expired(user, now)))
  }

  /** The user's unrevoked tokens, newest first. */
  function Current(rows: seq<Token>, user: Id): seq<Token> {
    OrderBy(Filter(rows, Unrevoked(user)), NewestFirst())
  }

  function Cleanup(rows: seq<Token>, user: Id, now: int): seq<Token> {
    var kept := NotExpired(rows, user, now);
    var current := Current(kept, user);
    if |current| > CAP then RevokeIf(kept, In(Names(current[CAP..]))) else kept
  }

  /** The token part of generateAuthResponseWithSessionId; `lifetime` is the configured one. */
  function Issue(rows: seq<Token>, user: Id, s: Id, now: int, lifetime: int): seq<Token> {
    Cleanup(rows + [Token(s, user, now, now + lifetime, false)], user, now)
  }

  /** What refreshTokens answers, given what the user row and the session store say. */
  function CheckRefresh(rows: seq<Token>, s: Id, now: int, active: bool, session: bool, sessionToken: bool): Result<Token> {
    match First(rows, Named(s))
    case None => Err(Unauthorized)
    case Some(t) =>
      if !IsValid(t, now) || !active || !session || !sessionToken then Err(Unauthorized) else Ok(t)
  }

  /** A token that is valid but whose session is gone or another's is revoked all the same. */
  function Refresh(rows: seq<Token>, s: Id, newToken: Id, now: int, lifetime: int, active: bool, session: bool, sessionToken: bool)
    : seq<Token>
  {
    match First(rows, Named(s))
    case None => rows
    case Some(t) =>
      if !IsValid(t, now) || !active then rows
      else
        var revoked := RevokeIf(rows, Named(s));
        if session && sessionToken then Issue(revoked, t.userId, newToken, now, lifetime) else revoked
  }

  function NamedOf(s: Id, user: Id): Token -> bool {
    (t: Token) => t.token == s && t.userId == user
  }

  // ---- Runs ------------------------------------------------------------------------

  datatype Event =
    | Login(user: Id, newToken: Id, now: int)
    | Redeem(s: Id, newToken: Id, now: int, active: bool, session: bool, sessionToken: bool)
    | Logout(s: Id, user: Id)
    | RevokeAll(user: Id)   // logoutAll, resetPassword, changePassword

  /** `issued` and `redeemed` are history: the strings ever generated, and those refreshed with success. */
  datatype World = World(rows: seq<Token>, issued: set<Id>, redeemed: seq<Id>)

  /** Strings are fresh and creation times grow. */
  predicate Enabled(w: World, e: Event) {
    e.Login? || e.Redeem? ==> e.newToken !in w.issued && forall t :: t in w.rows ==> t.createdAt < e.now
  }

  function Next(w: World, e: Event, lifetime: nat): World {
    match e
    case Login(user, newToken, now) => World(Issue(w.rows, user, newToken, now, lifetime), w.issued + {newToken}, w.redeemed)
    case Redeem(s, newToken, now, active, session, sessionToken) =>
      World(Refresh(w.rows, s, newToken, now, lifetime, active, session, sessionToken), w.issued + {newToken},
            if CheckRefresh(w.rows, s, now, active, session, sessionToken).Ok? then w.redeemed + [s] else w.redeemed)
    case Logout(s, user) => w.(rows := RevokeIf(w.rows, NamedOf(s, user)))
    case RevokeAll(user) => w.(rows := RevokeIf(w.rows, OfUser(user)))
  }

  predicate Legal(w: World, events: seq<Event>, lifetime: nat)
    decreases |events|
  {
    events != [] ==> Enabled(w, events[0]) && Legal(Next(w, events[0], lifetime), events[1..], lifetime)
  }

  function Run(w: World, events: seq<Event>, lifetime: nat): World
    decreases |events|
  {
    if events == [] then w else Run(Next(w, events[0], lifetime), events[1..], lifetime)
  }

  // ---- The table -------------------------------------------------------------------

  ghost predicate Distinct(rows: seq<Token>) {
    && (forall i, j :: 0 <= i < j < |rows| ==> rows[i].token != rows[j].token)
    && (forall i, j :: 0 <= i < j < |rows| ==> rows[i].createdAt < rows[j].createdAt)
  }

  /** Rows keep all but their revocation, which is never undone; none is new. */
  ghost predicate OnlyRevokes(before: seq<Token>, after: seq<Token>) {
    forall t :: t in after ==> exists u :: u in before && t == u.(revoked := t.revoked) && (u.revoked ==> t.revoked)
  }

  lemma HeadDistinct(rows: seq<Token>)
    requires Distinct(rows) && rows != []
    ensures forall t :: t in rows[1..] ==> rows[0].token != t.token && rows[0].createdAt < t.createdAt
  {
    forall t | t in rows[1..] ensures rows[0].token != t.token && rows[0].createdAt < t.createdAt {
      var i :| 0 <= i < |rows[1..]| && rows[1..][i] == t;
      assert rows[i + 1] == t;
    }
  }

  lemma {:induction false} FilterDistinct(rows: seq<Token>, p: Token -> bool)
    requires Distinct(rows)
    ensures Distinct(Filter(rows, p))
  {
    if rows != [] {
      var all, rest := Filter(rows, p), Filter(rows[1..], p);
      FilterDistinct(rows[1..], p);
      HeadDistinct(rows);
      FilterMembers(rows[1..], p);
      if p(rows[0]) {
        assert all == [rows[0]] + rest;
        forall i, j | 0 <= i < j < |all| ensures all[i].token != all[j].token && all[i].createdAt < all[j].createdAt {
          assert all[j] == rest[j - 1] && rest[j - 1] in rest;
          assert i > 0 ==> all[i] == rest[i - 1];
        }
      } else {
        assert all == rest;
      }
    }
  }

  /** Rows with distinct strings from a set are no more than the set. */
  lemma {:induction false} CountNames(rows: seq<Token>, names: set<Id>)
    requires Distinct(rows)
    ensures Count(rows, In(names)) <= |names|
  {
    if rows != [] {
      var rest := rows[1..];
      if rows[0].token in names {
        var fewer := names - {rows[0].token};
        CountNames(rest, fewer);
        HeadDistinct(rows);
        CountSame(rest, In(names), In(fewer));
      } else {
        CountNames(rest, names);
      }
    }
  }

  lemma {:induction false} NamesBound(rows: seq<Token>)
    ensures |Names(rows)| <= |rows|
  {
    if rows != [] {
      NamesBound(rows[1..]);
      assert Names(rows) == {rows[0].token} + Names(rows[1..]);
    }
  }

  lemma CurrentProperties(rows: seq<Token>, user: Id)
    ensures forall t | t in Current(rows, user) :: t in rows && Unrevoked(user)(t)
    ensures forall t | t in rows && Unrevoked(user)(t) :: t in Current(rows, user)
    ensures SortedBy(Current(rows, user), NewestFirst())
  {
    Ordered(Filter(rows, Unrevoked(user)), NewestFirst());
    FilterMembers(rows, Unrevoked(user));
  }

  lemma CurrentStrict(rows: seq<Token>, user: Id)
    requires Distinct(rows)
    ensures StrictBy(Current(rows, user), NewestFirst())
    ensures forall i, j :: 0 <= i < j < |Current(rows, user)| ==> Current(rows, user)[i].token != Current(rows, user)[j].token
  {
    var current := Current(rows, user);
    FilterDistinct(rows, Unrevoked(user));
    OrderedStrict(Filter(rows, Unrevoked(user)), NewestFirst());
    CurrentProperties(rows, user);
    forall i, j | 0 <= i < j < |current| ensures current[i].token != current[j].token {
      assert NewestFirst()(current[i]) < NewestFirst()(current[j]);
      assert current[i] in rows && current[j] in rows;
      var m :| 0 <= m < |rows| && rows[m] == current[i];
      var n :| 0 <= n < |rows| && rows[n] == current[j];
      assert m != n;
    }
  }

  /** The rows a clean-up leaves unrevoked. */
  function Survivors(rows: seq<Token>, user: Id, now: int): seq<Token> {
    var current := Current(NotExpired(rows, user, now), user);
    if |current| > 5 then current[..5] else current
  }

  /** After a clean-up the user's unrevoked tokens are the newest five of those not expired, or all of fewer. */
  lemma CleanupKeepsNewest(rows: seq<Token>, user: Id, now: int, t: Token)
    requires Distinct(rows)
    ensures t in Cleanup(rows, user, now) && Unrevoked(user)(t) <==> t in Survivors(rows, user, now)
  {
    var kept := NotExpired(rows, user, now);
    var current := Current(kept, user);
    CurrentProperties(kept, user);
    FilterDistinct(rows, Not(Expired(user, now)));
    CurrentStrict(kept, user);
    if |current| > CAP {
      var dropped := Names(current[CAP..]);
      var after := RevokeIf(kept, In(dropped));
      assert current == current[..CAP] + current[CAP..];
      if t in after && Unrevoked(user)(t) {
        var i :| 0 <= i < |kept| && after[i] == t;
        assert kept[i] in kept && t == kept[i];
        assert t in current[CAP..] ==> t.token in dropped;
      }
      if t in current[..CAP] {
        assert t in current && t in kept;
        var i :| 0 <= i < |kept| && kept[i] == t;
        forall j | CAP <= j < |current| ensures current[j].token != t.token {
        }
        assert t.token !in dropped;
        assert after[i] == t;
      }
    }
  }

  /** The token just issued heads the user's list. */
  lemma NewestHeads(rows: seq<Token>, newest: Token, now: int)
    requires Distinct(rows + [newest]) && !newest.revoked && newest.expiresAt >= now
    ensures var current := Current(NotExpired(rows + [newest], newest.userId, now), newest.userId);
            current != [] && current[0] == newest
  {
    var all := rows + [newest];
    var kept := NotExpired(all, newest.userId, now);
    var current := Current(kept, newest.userId);
    FilterMembers(all, Not(Expired(newest.userId, now)));
    CurrentProperties(kept, newest.userId);
    assert newest in all && newest in kept && newest in current;
    var i :| 0 <= i < |current| && current[i] == newest;
    assert NewestFirst()(current[0]) <= NewestFirst()(current[i]);
    assert current[0] in all;
    var j :| 0 <= j < |all| && all[j] == current[0];
    assert all[|rows|] == newest;
  }

  lemma SurvivorsNewer(rows: seq<Token>, user: Id, now: int, t: Token, d: Token)
    requires Distinct(rows)
    requires t in Survivors(rows, user, now) && d in Current(NotExpired(rows, user, now), user) && d !in Survivors(rows, user, now)
    ensures d.createdAt < t.createdAt
  {
    var current, survivors := Current(NotExpired(rows, user, now), user), Survivors(rows, user, now);
    FilterDistinct(rows, Not(Expired(user, now)));
    CurrentStrict(NotExpired(rows, user, now), user);
    var i :| 0 <= i < |current| && current[i] == d;
    var j :| 0 <= j < |survivors| && survivors[j] == t;
    assert j < i && NewestFirst()(current[j]) < NewestFirst()(current[i]);
  }

  /** After an issue the user's unrevoked tokens include the new one, are at most five, and are newer than every
      token that lost its place; a token loses its place only to five newer ones. */
  lemma IssueKeepsNewest(rows: seq<Token>, user: Id, s: Id, now: int, lifetime: nat)
    requires Distinct(rows + [Token(s, user, now, now + lifetime, false)])
    ensures var all := rows + [Token(s, user, now, now + lifetime, false)];
            var current := Current(NotExpired(all, user, now), user);
            var survivors := Survivors(all, user, now);
            && (forall t :: t in Issue(rows, user, s, now, lifetime) && Unrevoked(user)(t) <==> t in survivors)
            && Token(s, user, now, now + lifetime, false) in survivors
            && |survivors| == (if |current| > 5 then 5 else |current|)
            && (forall t, d :: t in survivors && d in current && d !in survivors ==> d.createdAt < t.createdAt)
  {
    var newest := Token(s, user, now, now + lifetime, false);
    var all := rows + [newest];
    var current, survivors := Current(NotExpired(all, user, now), user), Survivors(all, user, now);
    forall t ensures t in Issue(rows, user, s, now, lifetime) && Unrevoked(user)(t) <==> t in survivors {
      CleanupKeepsNewest(all, user, now, t);
    }
    NewestHeads(rows, newest, now);
    assert survivors[0] == newest;
    forall t, d | t in survivors && d in current && d !in survivors ensures d.createdAt < t.createdAt {
      SurvivorsNewer(all, user, now, t, d);
    }
  }

  /** Only rows of the user carry the strings of its tokens. */
  lemma CurrentNames(rows: seq<Token>, user: Id, n: nat, t: Token)
    requires Distinct(rows) && t in rows && n <= |Current(rows, user)|
    requires t.token in Names(Current(rows, user)[n..])
    ensures t.userId == user
  {
    CurrentProperties(rows, user);
    var d :| d in Current(rows, user)[n..] && d.token == t.token;
    assert d in Current(rows, user);
    var i :| 0 <= i < |rows| && rows[i] == t;
    var j :| 0 <= j < |rows| && rows[j] == d;
    assert i == j;
  }

  lemma NotRevoked(rows: seq<Token>, p: Token -> bool, t: Token)
    requires Distinct(rows)
    requires forall u :: u in rows && p(u) ==> u.userId != t.userId
    ensures t in RevokeIf(rows, p) <==> t in rows
  {
    var after := RevokeIf(rows, p);
    if i :| 0 <= i < |rows| && rows[i] == t {
      assert rows[i] in rows && after[i] == t;
    }
    if i :| 0 <= i < |after| && after[i] == t {
      RevokedRow(rows, p, i);
      assert rows[i] in rows && after[i].userId == rows[i].userId;
    }
  }

  /** A clean-up touches no other user's row. */
  lemma OthersUntouched(rows: seq<Token>, user: Id, now: int, t: Token)
    requires Distinct(rows) && t.userId != user
    ensures t in Cleanup(rows, user, now) <==> t in rows
  {
    var kept := NotExpired(rows, user, now);
    FilterMembers(rows, Not(Expired(user, now)));
    FilterDistinct(rows, Not(Expired(user, now)));
    if |Current(kept, user)| > CAP {
      var dropped := In(Names(Current(kept, user)[CAP..]));
      forall u | u in kept && dropped(u) ensures u.userId == user {
        CurrentNames(kept, user, CAP, u);
      }
      NotRevoked(kept, dropped, t);
    }
  }

  /** The user's unrevoked tokens created after t that a clean-up at `now` leaves in the table. */
  function NewerThan(t: Token, now: int): Token -> bool {
    (u: Token) => u.userId == t.userId && !u.revoked && !(u.expiresAt < now) && u.createdAt > t.createdAt
  }

  /** A clean-up keeps an unrevoked token exactly if it has not expired and fewer than five newer ones remain. */
  lemma KeptExactly(rows: seq<Token>, now: int, t: Token)
    requires Distinct(rows) && t in rows && !t.revoked
    ensures t in Cleanup(rows, t.userId, now) <==> now <= t.expiresAt && Count(rows, NewerThan(t, now)) < 5
  {
    var user := t.userId;
    var kept := NotExpired(rows, user, now);
    var current := Current(kept, user);
    CleanupKeepsNewest(rows, user, now, t);
    CurrentProperties(kept, user);
    FilterMembers(rows, Not(Expired(user, now)));
    if now <= t.expiresAt {
      assert t in kept && t in current;
      var i :| 0 <= i < |current| && current[i] == t;
      FilterDistinct(rows, Not(Expired(user, now)));
      CurrentStrict(kept, user);
      PlaceOf(rows, now, t, i);
      InPrefix(current, i, if |current| > CAP then CAP else |current|);
    }
  }

  lemma InPrefix(rows: seq<Token>, i: nat, n: nat)
    requires i < |rows| && n <= |rows| && forall j, k :: 0 <= j < k < |rows| ==> rows[j].token != rows[k].token
    ensures rows[i] in rows[..n] <==> i < n
  {
    if i < n {
      assert rows[..n][i] == rows[i];
    } else {
      forall j | 0 <= j < n ensures rows[..n][j] != rows[i] {
        assert rows[..n][j] == rows[j];
      }
    }
  }

  lemma PlaceOf(rows: seq<Token>, now: int, t: Token, i: nat)
    requires Distinct(rows)
    requires var current := Current(NotExpired(rows, t.userId, now), t.userId); i < |current| && current[i] == t
    ensures Count(rows, NewerThan(t, now)) == i
  {
    var kept := NotExpired(rows, t.userId, now);
    var unrevoked := Filter(kept, Unrevoked(t.userId));
    FilterDistinct(rows, Not(Expired(t.userId, now)));
    CurrentStrict(kept, t.userId);
    CurrentProperties(kept, t.userId);
    FilterMembers(rows, Not(Expired(t.userId, now)));
    PlaceIsCount(Current(kept, t.userId), NewestFirst(), i, NewerThan(t, now));
    OrderCount(unrevoked, NewestFirst(), NewerThan(t, now));
    CountFilter(kept, Unrevoked(t.userId), NewerThan(t, now));
    CountFilter(rows, Not(Expired(t.userId, now)), Both(Unrevoked(t.userId), NewerThan(t, now)));
    CountSame(rows, Both(Not(Expired(t.userId, now)), Both(Unrevoked(t.userId), NewerThan(t, now))), NewerThan(t, now));
  }

  lemma FoundByName(rows: seq<Token>, t: Token)
    requires Distinct(rows) && t in rows
    ensures First(rows, Named(t.token)) == Some(t)
  {
    CountPositive(rows, Named(t.token));
    FirstFound(rows, Named(t.token));
    var i :| 0 <= i < |rows| && rows[i] == t;
    var j :| 0 <= j < |rows| && rows[j] == First(rows, Named(t.token)).value;
    assert i == j;
  }

  // ---- What every step keeps -------------------------------------------------------

  /** The string was generated once and no row with it is unrevoked. */
  ghost predicate Dead(w: World, s: Id) {
    s in w.issued && forall t :: t in w.rows && t.token == s ==> t.revoked
  }

  ghost predicate Inv(w: World) {
    && Distinct(w.rows)
    && Names(w.rows) <= w.issued
    && (forall user :: Count(w.rows, Unrevoked(user)) <= 5)
    && (forall i, j :: 0 <= i < j < |w.redeemed| ==> w.redeemed[i] != w.redeemed[j])
    && (forall s :: s in w.redeemed ==> Dead(w, s))
  }

  /** Revoking raises no count of unrevoked rows. */
  lemma {:induction false} RevokeCount(rows: seq<Token>, p: Token -> bool, q: Token -> bool)
    requires forall t :: q(t) ==> !t.revoked
    ensures Count(RevokeIf(rows, p), q) <= Count(rows, q)
  {
    if rows != [] {
      assert RevokeIf(rows, p)[1..] == RevokeIf(rows[1..], p);
      RevokeCount(rows[1..], p, q);
    }
  }

  /** Nor does a clean-up. */
  lemma CleanupCount(rows: seq<Token>, user: Id, now: int, q: Token -> bool)
    requires forall t :: q(t) ==> !t.revoked
    ensures Count(Cleanup(rows, user, now), q) <= Count(rows, q)
  {
    var kept := NotExpired(rows, user, now);
    CountSplit(rows, Expired(user, now), q);
    RevokeCount(kept, In(Names(if |Current(kept, user)| > CAP then Current(kept, user)[CAP..] else [])), q);
  }

  lemma RevokeOnly(rows: seq<Token>, p: Token -> bool)
    requires Distinct(rows)
    ensures Distinct(RevokeIf(rows, p)) && OnlyRevokes(rows, RevokeIf(rows, p))
  {
    var after := RevokeIf(rows, p);
    forall t | t in after ensures exists u :: u in rows && t == u.(revoked := t.revoked) && (u.revoked ==> t.revoked) {
      var i :| 0 <= i < |after| && after[i] == t;
      RevokedRow(rows, p, i);
    }
    assert Distinct(after) by {
      assert forall i :: 0 <= i < |rows| ==> after[i].token == rows[i].token && after[i].createdAt == rows[i].createdAt;
    }
  }

  lemma RevokedRow(rows: seq<Token>, p: Token -> bool, i: nat)
    requires i < |rows|
    ensures var t := RevokeIf(rows, p)[i];
            rows[i] in rows && t == rows[i].(revoked := t.revoked) && (rows[i].revoked ==> t.revoked)
  {
  }

  lemma OnlyRevokesTrans(a: seq<Token>, b: seq<Token>, c: seq<Token>)
    requires OnlyRevokes(a, b) && OnlyRevokes(b, c)
    ensures OnlyRevokes(a, c)
  {
    forall t | t in c ensures exists u :: u in a && t == u.(revoked := t.revoked) && (u.revoked ==> t.revoked) {
      var v :| v in b && t == v.(revoked := t.revoked) && (v.revoked ==> t.revoked);
      var u :| u in a && v == u.(revoked := v.revoked) && (u.revoked ==> v.revoked);
    }
  }

  lemma CleanupOnly(rows: seq<Token>, user: Id, now: int)
    requires Distinct(rows)
    ensures Distinct(Cleanup(rows, user, now)) && OnlyRevokes(rows, Cleanup(rows, user, now))
    ensures forall u :: Count(Cleanup(rows, user, now), Unrevoked(u)) <= Count(rows, Unrevoked(u))
  {
    var kept := NotExpired(rows, user, now);
    FilterDistinct(rows, Not(Expired(user, now)));
    FilterMembers(rows, Not(Expired(user, now)));
    assert OnlyRevokes(rows, kept);
    var dropped := In(Names(if |Current(kept, user)| > CAP then Current(kept, user)[CAP..] else []));
    RevokeOnly(kept, dropped);
    OnlyRevokesTrans(rows, kept, RevokeIf(kept, dropped));
    forall u ensures Count(Cleanup(rows, user, now), Unrevoked(u)) <= Count(rows, Unrevoked(u)) {
      CleanupCount(rows, user, now, Unrevoked(u));
    }
  }

  lemma CleanupCap(rows: seq<Token>, user: Id, now: int)
    requires Distinct(rows)
    ensures Count(Cleanup(rows, user, now), Unrevoked(user)) <= 5
  {
    var after := Cleanup(rows, user, now);
    var survivors := Survivors(rows, user, now);
    CleanupOnly(rows, user, now);
    forall t | t in after && Unrevoked(user)(t) ensures In(Names(survivors))(t) {
      CleanupKeepsNewest(rows, user, now, t);
    }
    CountImplies(after, Unrevoked(user), In(Names(survivors)));
    CountNames(after, Names(survivors));
    NamesBound(survivors);
  }

  /** What a revoking or deleting change does to the invariant. */
  lemma FewerUnrevoked(w: World, rows: seq<Token>)
    requires Inv(w) && Distinct(rows) && OnlyRevokes(w.rows, rows)
    requires forall user :: Count(rows, Unrevoked(user)) <= Count(w.rows, Unrevoked(user))
    ensures Inv(w.(rows := rows))
    ensures forall s :: Dead(w, s) ==> Dead(w.(rows := rows), s)
  {
    forall t | t in rows ensures t.token in w.issued {
      var u :| u in w.rows && t == u.(revoked := t.revoked) && (u.revoked ==> t.revoked);
      assert u.token in Names(w.rows);
    }
  }

  /** Issuing a token with a string not generated before, to a table of any kind. */
  lemma IssueKeeps(w: World, user: Id, s: Id, now: int, lifetime: nat)
    requires Inv(w) && s !in w.issued && forall t :: t in w.rows ==> t.createdAt < now
    ensures var x := World(Issue(w.rows, user, s, now, lifetime), w.issued + {s}, w.redeemed);
            Inv(x) && forall r :: Dead(w, r) ==> Dead(x, r)
  {
    var newest := Token(s, user, now, now + lifetime, false);
    var all := w.rows + [newest];
    var after := Issue(w.rows, user, s, now, lifetime);
    assert Distinct(all) by {
      forall t | t in w.rows ensures t.token != s {
        assert t.token in Names(w.rows);
      }
    }
    CleanupOnly(all, user, now);
    CleanupCap(all, user, now);
    var x := World(after, w.issued + {s}, w.redeemed);
    forall t | t in after ensures t.token in x.issued && (t.token != s ==> exists u :: u in w.rows && u.token == t.token && (u.revoked ==> t.revoked)) {
      var u :| u in all && t == u.(revoked := t.revoked) && (u.revoked ==> t.revoked);
      assert u in w.rows ==> u.token in Names(w.rows);
    }
    forall u ensures Count(after, Unrevoked(u)) <= CAP {
      if u != user {
        CountAppend(w.rows, newest, Unrevoked(u));
      }
    }
  }

  /** A string redeemed before is refused, whatever else holds. */
  lemma RedeemedRefused(w: World, s: Id)
    requires Inv(w) && s in w.redeemed
    ensures First(w.rows, Named(s)).Some? ==> First(w.rows, Named(s)).value.revoked
  {
    FirstFound(w.rows, Named(s));
    assert Dead(w, s);
  }

  /** Revoking the redeemed token kills its string. */
  lemma RevokeNamed(w: World, s: Id)
    requires Inv(w) && First(w.rows, Named(s)).Some? && !First(w.rows, Named(s)).value.revoked
    ensures var x := w.(rows := RevokeIf(w.rows, Named(s)));
            Inv(x) && Dead(x, s) && s !in w.redeemed && forall r :: Dead(w, r) ==> Dead(x, r)
    ensures forall t :: t in RevokeIf(w.rows, Named(s)) ==> exists u :: u in w.rows && u.createdAt == t.createdAt
  {
    FirstFound(w.rows, Named(s));
    RevokeOnly(w.rows, Named(s));
    forall user { RevokeCount(w.rows, Named(s), Unrevoked(user)); }
    FewerUnrevoked(w, RevokeIf(w.rows, Named(s)));
    assert First(w.rows, Named(s)).value.token in Names(w.rows);
    assert s in w.redeemed ==> Dead(w, s);
    forall t | t in RevokeIf(w.rows, Named(s)) ensures exists u :: u in w.rows && u.createdAt == t.createdAt {
      var u :| u in w.rows && t == u.(revoked := t.revoked);
    }
  }

  lemma RefreshKeeps(w: World, e: Event, lifetime: nat)
    requires Inv(w) && e.Redeem? && Enabled(w, e)
    ensures Inv(Next(w, e, lifetime)) && forall s :: Dead(w, s) ==> Dead(Next(w, e, lifetime), s)
  {
    var found := First(w.rows, Named(e.s));
    if found.None? || !IsValid(found.value, e.now) || !e.active {
      assert Next(w, e, lifetime) == w.(issued := w.issued + {e.newToken});
    } else {
      RevokeNamed(w, e.s);
      var mid := w.(rows := RevokeIf(w.rows, Named(e.s)));
      if e.session && e.sessionToken {
        var logged := mid.(redeemed := w.redeemed + [e.s]);
        assert forall s :: Dead(mid, s) ==> Dead(logged, s);
        IssueKeeps(logged, found.value.userId, e.newToken, e.now, lifetime);
      } else {
        assert Next(w, e, lifetime) == mid.(issued := w.issued + {e.newToken});
      }
    }
  }

  lemma StepKeeps(w: World, e: Event, lifetime: nat)
    requires Inv(w) && Enabled(w, e)
    ensures Inv(Next(w, e, lifetime)) && forall s :: Dead(w, s) ==> Dead(Next(w, e, lifetime), s)
  {
    match e
    case Login(user, newToken, now) => IssueKeeps(w, user, newToken, now, lifetime);
    case Redeem(s, newToken, now, active, session, sessionToken) => RefreshKeeps(w, e, lifetime);
    case Logout(s, user) =>
      RevokeOnly(w.rows, NamedOf(s, user));
      forall u { RevokeCount(w.rows, NamedOf(s, user), Unrevoked(u)); }
      FewerUnrevoked(w, RevokeIf(w.rows, NamedOf(s, user)));
    case RevokeAll(user) =>
      RevokeOnly(w.rows, OfUser(user));
      forall u { RevokeCount(w.rows, OfUser(user), Unrevoked(u)); }
      FewerUnrevoked(w, RevokeIf(w.rows, OfUser(user)));
  }

  /** Over every run no user ever has more than five unrevoked tokens, no string is redeemed twice, and a
      string once dead stays dead. */
  lemma {:induction false} RunKeeps(w: World, events: seq<Event>, lifetime: nat)
    requires Inv(w) && Legal(w, events, lifetime)
    ensures Inv(Run(w, events, lifetime)) && forall s :: Dead(w, s) ==> Dead(Run(w, events, lifetime), s)
    decreases |events|
  {
    if events != [] {
      StepKeeps(w, events[0], lifetime);
      RunKeeps(Next(w, events[0], lifetime), events[1..], lifetime);
    }
  }

  /** From a first log-in on: the cap, and no string redeemed twice. */
  lemma CapAndSingleUse(events: seq<Event>, lifetime: nat, user: Id)
    requires Legal(World([], {}, []), events, lifetime)
    ensures var w := Run(World([], {}, []), events, lifetime);
            && Count(w.rows, Unrevoked(user)) <= 5
            && (forall i, j :: 0 <= i < j < |w.redeemed| ==> w.redeemed[i] != w.redeemed[j])
            && (forall s, now, active, session, sessionToken :: s in w.redeemed ==>
                  CheckRefresh(w.rows, s, now, active, session, sessionToken).Err?)
  {
    RunKeeps(World([], {}, []), events, lifetime);
    var w := Run(World([], {}, []), events, lifetime);
    forall s | s in w.redeemed
      ensures forall now, active, session, sessionToken :: CheckRefresh(w.rows, s, now, active, session, sessionToken).Err?
    {
      assert Dead(w, s);
      FirstFound(w.rows, Named(s));
    }
  }

  // ---- How long a token is accepted ------------------------------------------------

  /** One more token for its user leaves t in place: it has not expired and at most three newer ones remain. */
  predicate RoomFor(rows: seq<Token>, t: Token, now: int) {
    now <= t.expiresAt && Count(rows, NewerThan(t, now)) < 4
  }

  /** The event leaves the unrevoked token t in place. */
  predicate Spares(w: World, e: Event, t: Token) {
    match e
    case Login(user, _, now) => user != t.userId || RoomFor(w.rows, t, now)
    case Redeem(s, _, now, active, session, sessionToken) =>
      var found := First(w.rows, Named(s));
      if found.None? || !IsValid(found.value, now) || !active then true
      else if s == t.token then false
      else session && sessionToken && found.value.userId == t.userId ==> RoomFor(RevokeIf(w.rows, Named(s)), t, now)
    case Logout(s, user) => !NamedOf(s, user)(t)
    case RevokeAll(user) => user != t.userId
  }

  predicate Spared(w: World, events: seq<Event>, lifetime: nat, t: Token)
    decreases |events|
  {
    events == [] || (Spares(w, events[0], t) && Spared(Next(w, events[0], lifetime), events[1..], lifetime, t))
  }

  lemma GoneIsRevoked(before: seq<Token>, after: seq<Token>, t: Token)
    requires Distinct(before) && OnlyRevokes(before, after) && t in before && t !in after
    ensures forall u :: u in after && u.token == t.token ==> u.revoked
  {
    forall u | u in after && u.token == t.token ensures u.revoked {
      var v :| v in before && u == v.(revoked := u.revoked) && (v.revoked ==> u.revoked);
      var i :| 0 <= i < |before| && before[i] == t;
      var j :| 0 <= j < |before| && before[j] == v;
      assert i == j;
    }
  }

  lemma IssueSpares(rows: seq<Token>, user: Id, s: Id, now: int, lifetime: nat, t: Token)
    requires Distinct(rows + [Token(s, user, now, now + lifetime, false)]) && t in rows && !t.revoked
    ensures t in Issue(rows, user, s, now, lifetime) <==> (user == t.userId ==> RoomFor(rows, t, now))
    ensures t !in Issue(rows, user, s, now, lifetime) ==>
              forall u :: u in Issue(rows, user, s, now, lifetime) && u.token == t.token ==> u.revoked
  {
    var newest := Token(s, user, now, now + lifetime, false);
    var all := rows + [newest];
    CleanupOnly(all, user, now);
    if user == t.userId {
      assert newest.createdAt > t.createdAt by {
        var i :| 0 <= i < |rows| && rows[i] == t;
        assert all[i] == t && all[|rows|] == newest;
      }
      KeptExactly(all, now, t);
      CountAppend(rows, newest, NewerThan(t, now));
    } else {
      OthersUntouched(all, user, now, t);
    }
    if t !in Issue(rows, user, s, now, lifetime) {
      GoneIsRevoked(all, Issue(rows, user, s, now, lifetime), t);
    }
  }

  lemma DistinctIssue(w: World, user: Id, s: Id, now: int, lifetime: nat)
    requires Distinct(w.rows) && Names(w.rows) <= w.issued && s !in w.issued && forall t :: t in w.rows ==> t.createdAt < now
    ensures Distinct(w.rows + [Token(s, user, now, now + lifetime, false)])
  {
    forall t | t in w.rows ensures t.token != s {
      assert t.token in Names(w.rows);
    }
  }

  lemma RevokeSpares(rows: seq<Token>, p: Token -> bool, t: Token)
    requires Distinct(rows) && t in rows && !t.revoked
    ensures t in RevokeIf(rows, p) <==> !p(t)
    ensures p(t) ==> forall u :: u in RevokeIf(rows, p) && u.token == t.token ==> u.revoked
  {
    var after := RevokeIf(rows, p);
    RevokeOnly(rows, p);
    var i :| 0 <= i < |rows| && rows[i] == t;
    if p(t) {
      assert after[i] != t;
      forall j | 0 <= j < |after| ensures after[j] != t {
        assert j != i ==> rows[j].token != t.token;
      }
      GoneIsRevoked(rows, after, t);
    } else {
      assert after[i] == t;
    }
  }

  lemma RedeemSpares(w: World, e: Event, lifetime: nat, t: Token)
    requires Inv(w) && e.Redeem? && Enabled(w, e) && t in w.rows && !t.revoked
    ensures Spares(w, e, t) ==> t in Next(w, e, lifetime).rows
    ensures !Spares(w, e, t) ==> Dead(Next(w, e, lifetime), t.token)
  {
    var found := First(w.rows, Named(e.s));
    assert t.token in Names(w.rows);
    if found.Some? && IsValid(found.value, e.now) && e.active {
      var rows := RevokeIf(w.rows, Named(e.s));
      RevokeSpares(w.rows, Named(e.s), t);
      RevokeNamed(w, e.s);
      var mid := w.(rows := rows);
      if e.session && e.sessionToken {
        IssueKeeps(mid, found.value.userId, e.newToken, e.now, lifetime);
        DistinctIssue(mid, found.value.userId, e.newToken, e.now, lifetime);
        if e.s != t.token {
          IssueSpares(rows, found.value.userId, e.newToken, e.now, lifetime, t);
        } else {
          assert Dead(mid, t.token);
        }
      }
    }
  }

  /** Sparing is exact: a token the event does not spare is dead after it. */
  lemma StepSpares(w: World, e: Event, lifetime: nat, t: Token)
    requires Inv(w) && Enabled(w, e) && t in w.rows && !t.revoked
    ensures Spares(w, e, t) ==> t in Next(w, e, lifetime).rows
    ensures !Spares(w, e, t) ==> Dead(Next(w, e, lifetime), t.token)
  {
    assert t.token in Names(w.rows);
    match e
    case Login(user, newToken, now) =>
      DistinctIssue(w, user, newToken, now, lifetime);
      IssueSpares(w.rows, user, newToken, now, lifetime, t);
    case Redeem(_, _, _, _, _, _) => RedeemSpares(w, e, lifetime, t);
    case Logout(s, user) => RevokeSpares(w.rows, NamedOf(s, user), t);
    case RevokeAll(user) => RevokeSpares(w.rows, OfUser(user), t);
  }

  lemma {:induction false} RunSpares(w: World, events: seq<Event>, lifetime: nat, t: Token)
    requires Inv(w) && Legal(w, events, lifetime) && t in w.rows && !t.revoked
    ensures Spared(w, events, lifetime, t) ==> t in Run(w, events, lifetime).rows
    ensures !Spared(w, events, lifetime, t) ==> Dead(Run(w, events, lifetime), t.token)
    decreases |events|
  {
    if events != [] {
      StepSpares(w, events[0], lifetime, t);
      StepKeeps(w, events[0], lifetime);
      var x := Next(w, events[0], lifetime);
      if Spares(w, events[0], t) {
        RunSpares(x, events[1..], lifetime, t);
      } else {
        RunKeeps(x, events[1..], lifetime);
      }
    }
  }

  /** After any run an unrevoked token is accepted, for an active user with a session, exactly if its lifetime is
      not over and every event of the run spared it. */
  lemma RedeemsExactly(w: World, events: seq<Event>, lifetime: nat, t: Token, later: int)
    requires Inv(w) && Legal(w, events, lifetime) && t in w.rows && !t.revoked
    ensures CheckRefresh(Run(w, events, lifetime).rows, t.token, later, true, true, true).Ok? <==>
            later <= t.expiresAt && Spared(w, events, lifetime, t)
  {
    RunSpares(w, events, lifetime, t);
    RunKeeps(w, events, lifetime);
    var x := Run(w, events, lifetime);
    if Spared(w, events, lifetime, t) {
      FoundByName(x.rows, t);
    } else {
      FirstFound(x.rows, Named(t.token));
    }
  }

  /** In particular the token a log-in has just issued. */
  lemma IssuedRedeems(w: World, user: Id, s: Id, now: int, events: seq<Event>, lifetime: nat, later: int)
    requires Inv(w) && Enabled(w, Login(user, s, now))
    requires Legal(Next(w, Login(user, s, now), lifetime), events, lifetime)
    ensures var x := Next(w, Login(user, s, now), lifetime);
            CheckRefresh(Run(x, events, lifetime).rows, s, later, true, true, true).Ok? <==>
            later <= now + lifetime && Spared(x, events, lifetime, Token(s, user, now, now + lifetime, false))
  {
    var t := Token(s, user, now, now + lifetime, false);
    DistinctIssue(w, user, s, now, lifetime);
    IssueKeepsNewest(w.rows, user, s, now, lifetime);
    StepKeeps(w, Login(user, s, now), lifetime);
    assert Unrevoked(user)(t);
    RedeemsExactly(Next(w, Login(user, s, now), lifetime), events, lifetime, t, later);
  }

  // ---- Up to four further log-ins --------------------------------------------------

  /** The event issues a token to the user. */
  predicate Issues(w: World, e: Event, user: Id) {
    match e
    case Login(u, _, _) => u == user
    case Redeem(s, _, now, active, session, sessionToken) =>
      var r := CheckRefresh(w.rows, s, now, active, session, sessionToken);
      r.Ok? && r.value.userId == user
    case _ => false
  }

  function CountIssues(w: World, events: seq<Event>, lifetime: nat, user: Id): nat
    decreases |events|
  {
    if events == [] then 0 else
    (if Issues(w, events[0], user) then 1 else 0) + CountIssues(Next(w, events[0], lifetime), events[1..], lifetime, user)
  }

  /** The event does not ask for the token's revocation and comes within its lifetime. */
  predicate Undisturbed(e: Event, t: Token) {
    match e
    case Login(_, _, now) => now <= t.expiresAt
    case Redeem(s, _, now, _, _, _) => s != t.token && now <= t.expiresAt
    case Logout(s, user) => !NamedOf(s, user)(t)
    case RevokeAll(user) => user != t.userId
  }

  function NewerUnrevoked(t: Token): Token -> bool {
    (u: Token) => u.userId == t.userId && !u.revoked && u.createdAt > t.createdAt
  }

  lemma IssueCount(rows: seq<Token>, user: Id, s: Id, now: int, lifetime: nat, t: Token)
    ensures Count(Issue(rows, user, s, now, lifetime), NewerUnrevoked(t))
         <= Count(rows, NewerUnrevoked(t)) + if user == t.userId then 1 else 0
  {
    var newest := Token(s, user, now, now + lifetime, false);
    CountAppend(rows, newest, NewerUnrevoked(t));
    CleanupCount(rows + [newest], user, now, NewerUnrevoked(t));
  }

  lemma StepCount(w: World, e: Event, lifetime: nat, t: Token)
    ensures Count(Next(w, e, lifetime).rows, NewerUnrevoked(t))
         <= Count(w.rows, NewerUnrevoked(t)) + if Issues(w, e, t.userId) then 1 else 0
  {
    match e
    case Login(user, newToken, now) => IssueCount(w.rows, user, newToken, now, lifetime, t);
    case Redeem(s, newToken, now, active, session, sessionToken) =>
      RevokeCount(w.rows, Named(s), NewerUnrevoked(t));
      if First(w.rows, Named(s)).Some? {
        IssueCount(RevokeIf(w.rows, Named(s)), First(w.rows, Named(s)).value.userId, newToken, now, lifetime, t);
      }
    case Logout(s, user) => RevokeCount(w.rows, NamedOf(s, user), NewerUnrevoked(t));
    case RevokeAll(user) => RevokeCount(w.rows, OfUser(user), NewerUnrevoked(t));
  }

  lemma RoomLeft(w: World, e: Event, t: Token)
    requires Undisturbed(e, t)
    requires Count(w.rows, NewerUnrevoked(t)) + (if Issues(w, e, t.userId) then 1 else 0) < 5
    ensures Spares(w, e, t)
  {
    if e.Login? {
      CountImplies(w.rows, NewerThan(t, e.now), NewerUnrevoked(t));
    } else if e.Redeem? {
      var rows := RevokeIf(w.rows, Named(e.s));
      RevokeCount(w.rows, Named(e.s), NewerUnrevoked(t));
      CountImplies(rows, NewerThan(t, e.now), NewerUnrevoked(t));
    }
  }

  /** A token is spared while nobody asks for its revocation and the newer unrevoked ones, with all that the run
      still issues to its user, are fewer than five. */
  lemma {:induction false} FewIssuesSpare(w: World, events: seq<Event>, lifetime: nat, t: Token)
    requires forall e :: e in events ==> Undisturbed(e, t)
    requires Count(w.rows, NewerUnrevoked(t)) + CountIssues(w, events, lifetime, t.userId) < 5
    ensures Spared(w, events, lifetime, t)
    decreases |events|
  {
    if events != [] {
      RoomLeft(w, events[0], t);
      StepCount(w, events[0], lifetime, t);
      FewIssuesSpare(Next(w, events[0], lifetime), events[1..], lifetime, t);
    }
  }
}
