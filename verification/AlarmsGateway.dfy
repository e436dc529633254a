/** The three socket maps of the alarms gateway. */
module AlarmsGateway {
  import opened Options

  /** From a user, tenant or customer id to the ids of its sockets. */
  type Sockets = map<string, set<Id>>

  /** What a connection resolves to; an empty text counts as missing. */
  datatype Client = Client(userId: Option<string>, tenantId: Option<string>, customerId: Option<string>)

  predicate Present(x: Option<string>) {
    x.Some? && x.value != []
  }

  /** `a ?? b` */
  function OrElse(a: Option<string>, b: Option<string>): Option<string> {
    if a.Some? then a else b
  }

  /** `payload` is the verified token's content, if there is a token and it verifies. */
  function Resolve(auth: Client, payload: Option<Client>): Client {
    if payload.Some? && (!Present(auth.userId) || !Present(auth.tenantId))
    then Client(OrElse(auth.userId, payload.value.userId), OrElse(auth.tenantId, payload.value.tenantId),
                OrElse(auth.customerId, payload.value.customerId))
    else auth
  }

  /** Each id is what the handshake gives. Only if user or tenant is missing or empty there, and the token verifies,
      an id that the handshake does not give at all comes from the token. */
  lemma ResolvedExactly(auth: Client, payload: Option<Client>)
    ensures var r := Resolve(auth, payload);
            var asks := auth.userId in {None, Some("")} || auth.tenantId in {None, Some("")};
            && (payload == None || !asks ==> r == auth)
            && (forall p :: payload == Some(p) && asks ==>
                  && (auth.userId == None ==> r.userId == p.userId) && (auth.userId != None ==> r.userId == auth.userId)
                  && (auth.tenantId == None ==> r.tenantId == p.tenantId) && (auth.tenantId != None ==> r.tenantId == auth.tenantId)
                  && (auth.customerId == None ==> r.customerId == p.customerId)
                  && (auth.customerId != None ==> r.customerId == auth.customerId))
  {
  }

  /** The map is the exact inverse of the sockets' ids, without empty sets. */
  ghost predicate Inverse(m: Sockets, ids: map<Id, Option<string>>) {
    && (forall k :: k in m ==> m[k] != {} && k != [])
    && (forall k, c :: k in m && c in m[k] ==> c in ids && ids[c] == Some(k))
    && (forall c :: c in ids && Present(ids[c]) ==> ids[c].value in m && c in m[ids[c].value])
  }

  ghost function UserIds(clients: map<Id, Client>): map<Id, Option<string>> {
    map c | c in clients :: clients[c].userId
  }

  ghost function TenantIds(clients: map<Id, Client>): map<Id, Option<string>> {
    map c | c in clients :: clients[c].tenantId
  }

  ghost function CustomerIds(clients: map<Id, Client>): map<Id, Option<string>> {
    map c | c in clients :: clients[c].customerId
  }

  lemma IdsAfterConnect(clients: map<Id, Client>, c: Id, x: Client)
    ensures UserIds(clients[c := x]) == UserIds(clients)[c := x.userId]
    ensures TenantIds(clients[c := x]) == TenantIds(clients)[c := x.tenantId]
    ensures CustomerIds(clients[c := x]) == CustomerIds(clients)[c := x.customerId]
  {
  }

  lemma IdsAfterDisconnect(clients: map<Id, Client>, c: Id)
    ensures UserIds(clients - {c}) == UserIds(clients) - {c}
    ensures TenantIds(clients - {c}) == TenantIds(clients) - {c}
    ensures CustomerIds(clients - {c}) == CustomerIds(clients) - {c}
  {
  }

  method Add(m: Sockets, key: Option<string>, c: Id, ghost ids: map<Id, Option<string>>) returns (r: Sockets)
    requires Inverse(m, ids) && c !in ids
    ensures Inverse(r, ids[c := key])
  {
    r := m;
    if Present(key) {
      var k := key.value;
      if k !in r {
        r := r[k := {}];
      }
      r := r[k := r[k] + {c}];
    }
  }

  /** Walks over all entries, as forEach does, deleting the sets that become empty. */
  method Drop(m: Sockets, c: Id, ghost ids: map<Id, Option<string>>) returns (r: Sockets)
    requires Inverse(m, ids)
    ensures Inverse(r, ids - {c})
  {
    r := m;
    var left := m.Keys;
    while left != {}
      invariant left <= m.Keys && r.Keys <= m.Keys && left <= r.Keys
      invariant forall k :: k in left ==> r[k] == m[k]
      invariant forall k :: k in m && k !in left ==> if m[k] - {c} == {} then k !in r else k in r && r[k] == m[k] - {c}
      decreases left
    {
      var k :| k in left;
      if c in r[k] {
        r := r[k := r[k] - {c}];
        if r[k] == {} {
          r := r - {k};
        }
      } else {
        assert m[k] - {c} == m[k];
      }
      left := left - {k};
    }
  }

  class AlarmsGateway {
    var userSockets: Sockets
    var tenantSockets: Sockets
    var customerSockets: Sockets
    ghost var clients: map<Id, Client>

    ghost predicate Invariant()
      reads this
    {
      && Inverse(userSockets, UserIds(clients))
      && Inverse(tenantSockets, TenantIds(clients))
      && Inverse(customerSockets, CustomerIds(clients))
    }

    constructor ()
      ensures Invariant() && clients == map[]
    {
      userSockets, tenantSockets, customerSockets, clients := map[], map[], map[], map[];
    }

    method HandleConnection(c: Id, auth: Client, payload: Option<Client>)
      requires Invariant() && c !in clients
      modifies this
      ensures Invariant() && clients == old(clients)[c := Resolve(auth, payload)]
    {
      var resolved := Resolve(auth, payload);
      userSockets := Add(userSockets, resolved.userId, c, UserIds(clients));
      tenantSockets := Add(tenantSockets, resolved.tenantId, c, TenantIds(clients));
      customerSockets := Add(customerSockets, resolved.customerId, c, CustomerIds(clients));
      IdsAfterConnect(clients, c, resolved);
      clients := clients[c := resolved];
    }

    method HandleDisconnect(c: Id)
      requires Invariant()
      modifies this
      ensures Invariant() && clients == old(clients) - {c}
    {
      userSockets := Drop(userSockets, c, UserIds(clients));
      tenantSockets := Drop(tenantSockets, c, TenantIds(clients));
      customerSockets := Drop(customerSockets, c, CustomerIds(clients));
      IdsAfterDisconnect(clients, c);
      clients := clients - {c};
    }

    /** A user is connected exactly while some socket resolved to it. */
    method IsUserConnected(userId: string) returns (connected: bool)
      requires Invariant()
      ensures connected <==> userId != [] && exists c :: c in clients && clients[c].userId == Some(userId)
    {
      connected := userId in userSockets && userSockets[userId] != {};
      ghost var ids := UserIds(clients);
      if connected {
        ghost var c :| c in userSockets[userId];
        assert c in ids && ids[c] == Some(userId);
      } else if c :| c in clients && clients[c].userId == Some(userId) {
        assert c in ids && ids[c] == Some(userId);
      }
    }
  }
}
