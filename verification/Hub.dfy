/**
 The server's fan-out point: registry of connected clients, per-user connection counts, the revision
 counter and one bounded queue per client.  `Broadcast` is written as its two separable halves,
 `TakeRev` (the atomic add) and `Deliver` (everything under the mutex), because other goroutines run
 between them.
 */
module Hub {
  const CLIENT_BUFFER: nat := 32
  const MAX_PER_USER: nat := 8

  datatype Event = Event(entity: string, id: string, action: string, rev: nat)

  /** The non-blocking send into a bounded channel: a full buffer silently drops the event. */
  function Offer<T>(queue: seq<T>, item: T): (r: seq<T>)
    ensures r == queue + [item] || (r == queue && |queue| >= 32)
    ensures |queue| <= 32 ==> |r| <= 32
  {
    if |queue| < CLIENT_BUFFER then queue + [item] else queue
  }

  class Client {
    const user: string
    var send: seq<Event>

    constructor (user: string)
      ensures this.user == user && send == []
    {
      this.user := user;
      send := [];
    }
  }

  ghost function UserClients(clients: set<Client>, user: string): set<Client> {
    set c | c in clients && c.user == user
  }

  /** The entry for `user` is exactly the number of its clients, and absent rather than zero. */
  ghost predicate CountedFor(clients: set<Client>, counts: map<string, nat>, user: string) {
    && (user in counts <==> UserClients(clients, user) != {})
    && (user in counts ==> counts[user] == |UserClients(clients, user)|)
  }

  ghost predicate Counted(clients: set<Client>, counts: map<string, nat>) {
    forall user :: CountedFor(clients, counts, user)
  }

  lemma JoinCounted(clients: set<Client>, counts: map<string, nat>, client: Client, user: string)
    requires CountedFor(clients, counts, user) && client !in clients
    ensures var have := if client.user in counts then counts[client.user] else 0;
            CountedFor(clients + {client}, counts[client.user := have + 1], user)
  {
    if user == client.user {
      assert UserClients(clients + {client}, user) == UserClients(clients, user) + {client};
    } else {
      assert UserClients(clients + {client}, user) == UserClients(clients, user);
    }
  }

  function Decremented(counts: map<string, nat>, user: string): map<string, nat>
    requires user in counts && counts[user] >= 1
  {
    if counts[user] == 1 then map u | u in counts && u != user :: counts[u] else counts[user := counts[user] - 1]
  }

  lemma CountsItself(clients: set<Client>, counts: map<string, nat>, client: Client)
    requires CountedFor(clients, counts, client.user) && client in clients
    ensures client.user in counts && counts[client.user] >= 1
  {
    assert client in UserClients(clients, client.user);
  }

  lemma LeaveCounted(clients: set<Client>, counts: map<string, nat>, client: Client, user: string)
    requires CountedFor(clients, counts, user) && client in clients && client.user in counts && counts[client.user] >= 1
    ensures CountedFor(clients - {client}, Decremented(counts, client.user), user)
  {
    assert UserClients(clients - {client}, user) == UserClients(clients, user) - {client};
    if user == client.user {
      assert client in UserClients(clients, user);
      assert |UserClients(clients - {client}, user)| == counts[user] - 1;
    }
  }

  class Registry {
    var clients: set<Client>
    var counts: map<string, nat>
    var rev: nat

    ghost function Of(user: string): set<Client>
      reads this
    {
      UserClients(clients, user)
    }

    /** The counts are exact and within the cap; every queue is within its capacity. */
    ghost predicate Valid()
      reads this, clients
    {
      && Counted(clients, counts)
      && (forall u :: u in counts ==> counts[u] <= 8)
      && (forall c :: c in clients ==> |c.send| <= 32)
    }

    constructor ()
      ensures Valid() && clients == {} && rev == 0
    {
      clients, counts, rev := {}, map[], 0;
    }

    /** Refuses exactly the users that already hold MAX_PER_USER connections. */
    method Register(user: string) returns (client: Client?)
      requires Valid()
      modifies this
      ensures Valid() && rev == old(rev)
      ensures client == null <==> |old(Of(user))| >= 8
      ensures client == null ==> clients == old(clients) && counts == old(counts)
      ensures client != null ==> fresh(client) && client.user == user && client.send == []
      ensures client != null ==> clients == old(clients) + {client}
    {
      var have := if user in counts then counts[user] else 0;
      assert CountedFor(clients, counts, user);
      if have >= MAX_PER_USER {
        return null;
      }
      client := new Client(user);
      ghost var joined, after := clients + {client}, counts[user := have + 1];
      forall u ensures CountedFor(joined, after, u) {
        JoinCounted(clients, counts, client, u);
      }
      clients := clients + {client};
      counts := counts[user := have + 1];
    }

    /** Safe to call again: a client that is not registered changes nothing. */
    method Unregister(client: Client)
      requires Valid()
      modifies this
      ensures Valid() && rev == old(rev)
      ensures clients == old(clients) - {client}
      ensures client !in old(clients) ==> counts == old(counts)
    {
      if client !in clients {
        return;
      }
      var user := client.user;
      CountsItself(clients, counts, client);
      ghost var remaining, after := clients - {client}, Decremented(counts, user);
      forall u ensures CountedFor(remaining, after, u) {
        LeaveCounted(clients, counts, client, u);
      }
      clients := clients - {client};
      var left := counts[user] - 1;
      if left <= 0 {
        counts := map u | u in counts && u != user :: counts[u];
      } else {
        counts := counts[user := left];
      }
      assert counts == after;
    }

    /** `rev.Add(1)`: lock-free, so two broadcasters may deliver in the other order. */
    method TakeRev(entity: string, id: string, action: string) returns (ev: Event)
      requires Valid()
      modifies this`rev
      ensures Valid() && rev == old(rev) + 1 && ev == Event(entity, id, action, rev)
    {
      rev := rev + 1;
      ev := Event(entity, id, action, rev);
    }

    /** Under the mutex: offers the event to every registered client, never blocking on a full one. */
    method Deliver(ev: Event)
      requires Valid()
      modifies clients`send
      ensures Valid()
      ensures forall c :: c in clients ==> c.send == Offer(old(c.send), ev)
    {
      var todo := clients;
      while todo != {}
        invariant todo <= clients
        invariant forall c :: c in clients ==> c.send == if c in todo then old(c.send) else Offer(old(c.send), ev)
        decreases todo
      {
        var c :| c in todo;
        if |c.send| < CLIENT_BUFFER {
          c.send := c.send + [ev];
        }
        todo := todo - {c};
      }
    }

    method Broadcast(entity: string, id: string, action: string)
      requires Valid()
      modifies this`rev, clients`send
      ensures Valid() && rev == old(rev) + 1
      ensures forall c :: c in clients ==> c.send == Offer(old(c.send), Event(entity, id, action, rev))
    {
      var ev := TakeRev(entity, id, action);
      Deliver(ev);
    }
  }
}
