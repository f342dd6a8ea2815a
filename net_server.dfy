/**
 * `NetServer`: the TCP listener of one connection and its registry of
 * network clients. Accepted clients are admitted one at a time under
 * increasing ids, at most `MaxClientCount` at once; clients are removed by
 * `Disconnect`, and when the accept loop ends every registered client is
 * disposed and the registry is emptied.
 *
 * Sockets stay abstract: a client is an object with a connected flag and a
 * disposed flag, and what the listener does is a sequence of accept events.
 */
module NetServers {

  /** `Constants.MaxClientCount` */
  const MaxClientCount: nat := 1

  /** `NetworkClient`, reduced to what the registry looks at. */
  class NetworkClient {
    /** `IsConnected` of the accepted socket. */
    const IsConnected: bool
    var disposed: bool

    constructor (connected: bool)
      ensures IsConnected == connected && !disposed
    {
      IsConnected := connected;
      disposed := false;
    }

    method Dispose()
      modifies this
      ensures disposed
    {
      disposed := true;
    }
  }

  /** What happened to one accepted connection. */
  datatype Admission =
    | RejectedMax   // the registry was full; the client was disposed
    | NotCompleted  // the socket was not connected; the client was disposed
    | Registered(id: int)

  /** What one `AcceptSocketAsync` await produced. */
  datatype AcceptEvent =
    | Accepted(client: NetworkClient)
    | Cancelled  // OperationCanceledException: the stopping token fired
    | Failed     // any other exception

  /** How `ExecuteAsync` ends: quietly, or by rethrowing. */
  datatype Completion = Stopped | Rethrown

  /** How many events the accept loop consumes as accepted connections before it stops. */
  function StopIndex(events: seq<AcceptEvent>): (n: nat)
    ensures n <= |events|
    ensures forall j :: 0 <= j < n ==> events[j].Accepted?
    ensures n < |events| ==> !events[n].Accepted?
  {
    if |events| == 0 || !events[0].Accepted? then 0
    else
      var n := StopIndex(events[1..]);
      assert forall j :: 1 <= j < n + 1 ==> events[j] == events[1..][j - 1];
      n + 1
  }

  /** The clients of the accepted-connection events. */
  function EventClients(events: seq<AcceptEvent>): set<NetworkClient>
  {
    set i | 0 <= i < |events| && events[i].Accepted? :: events[i].client
  }

  /** No two accepted-connection events share a client instance. */
  predicate DistinctClients(events: seq<AcceptEvent>)
  {
    forall i, j :: 0 <= i < |events| && 0 <= j < |events| && events[i].Accepted? && events[j].Accepted? && i != j ==>
      events[i].client != events[j].client
  }

  /**
   * Each accepted connection is a new client instance: none is already
   * registered and no two events share one.
   */
  predicate NewClients(events: seq<AcceptEvent>, registry: map<int, NetworkClient>)
  {
    && DistinctClients(events)
    && forall i :: 0 <= i < |events| && events[i].Accepted? ==> events[i].client !in registry.Values
  }

  /** The clients of the accepted-connection events among the first `n`. */
  function ConsumedClients(events: seq<AcceptEvent>, n: nat): set<NetworkClient>
    requires n <= |events|
  {
    set i | 0 <= i < n && events[i].Accepted? :: events[i].client
  }

  /** Taking one more accepted event adds its client to the consumed clients. */
  lemma ConsumedClientsStep(events: seq<AcceptEvent>, i: nat)
    requires i < |events| && events[i].Accepted?
    ensures ConsumedClients(events, i + 1) == ConsumedClients(events, i) + {events[i].client}
  {
  }

  /** Each accepted connection arrives as a client that is not yet disposed. */
  predicate Undisposed(events: seq<AcceptEvent>)
    reads EventClients(events)
  {
    forall i :: 0 <= i < |events| && events[i].Accepted? ==> !events[i].client.disposed
  }

  /** Some element of a non-empty set. */
  ghost function Pick<T>(s: set<T>): (x: T)
    requires |s| > 0
    ensures x in s
  {
    var x :| x in s; x
  }

  /** A key under which `m` holds `v`. */
  ghost function KeyOf<K, V>(m: map<K, V>, v: V): (k: K)
    requires v in m.Values
    ensures k in m && m[k] == v
  {
    var k :| k in m && m[k] == v; k
  }

  /**
   * With each client under one key, removing the key of a client removes
   * exactly the entries that hold that client.
   */
  lemma RemoveOnly(m: map<int, NetworkClient>, key: int)
    requires key in m
    requires forall a, b :: a in m && b in m && m[a] == m[b] ==> a == b
    ensures m - {key} == map k | k in m && m[k] != m[key] :: m[k]
  {
    var r := map k | k in m && m[k] != m[key] :: m[k];
    forall k | k in m && k != key
      ensures k in r
    {
      assert m[k] != m[key];
    }
    assert (m - {key}).Keys == r.Keys;
  }

  class NetServer {
    /** `m_Clients` */
    var clients: map<int, NetworkClient>
    /** `LastClientId`, the last id handed out. */
    var lastClientId: int

    /**
     * The registry invariant: never more than `MaxClientCount` clients, every
     * id one already handed out, and no client under two ids.
     */
    ghost predicate Valid()
      reads this
    {
      && 0 <= lastClientId
      && |clients| <= MaxClientCount
      && (forall k :: k in clients ==> 0 < k <= lastClientId)
      && (forall a, b :: a in clients && b in clients && clients[a] == clients[b] ==> a == b)
    }

    constructor ()
      ensures Valid() && clients == map[] && lastClientId == 0
    {
      clients := map[];
      lastClientId := 0;
    }

    /** `m_Clients.Keys.ToArray()`, in no particular order. */
    method KeySnapshot() returns (keys: seq<int>)
      ensures |keys| == |clients|
      ensures forall i :: 0 <= i < |keys| ==> keys[i] in clients
      ensures forall k :: k in clients ==> k in keys
      ensures forall a, b :: 0 <= a < b < |keys| ==> keys[a] != keys[b]
    {
      keys := [];
      var remaining := clients.Keys;
      while |remaining| > 0
        invariant remaining <= clients.Keys
        invariant forall i :: 0 <= i < |keys| ==> keys[i] in clients && keys[i] !in remaining
        invariant forall k :: k in clients && k !in remaining ==> k in keys
        invariant |keys| + |remaining| == |clients.Keys|
        invariant forall a, b :: 0 <= a < b < |keys| ==> keys[a] != keys[b]
        decreases |remaining|
      {
        ghost var some := Pick(remaining);
        var k :| k in remaining;
        keys := keys + [k];
        remaining := remaining - {k};
      }
    }

    /** `Clients`: a copy of the registered clients, each once. */
    method Clients() returns (snapshot: seq<NetworkClient>)
      requires Valid()
      ensures |snapshot| == |clients|
      ensures forall c :: c in snapshot <==> c in clients.Values
    {
      var keys := KeySnapshot();
      var registry := clients;
      snapshot := seq(|keys|, i requires 0 <= i < |keys| => registry[keys[i]]);
      forall c | c in registry.Values
        ensures c in snapshot
      {
        var k := KeyOf(registry, c);
        var i :| 0 <= i < |keys| && keys[i] == k;
        assert snapshot[i] == c;
      }
    }

    /**
     * `Disconnect`: nothing for a null client; otherwise the entry holding
     * the client, if any, is removed and the client disposed. Every other
     * entry stays.
     */
    method Disconnect(client: NetworkClient?)
      requires Valid()
      modifies this, client
      ensures Valid() && lastClientId == old(lastClientId)
      ensures clients == map k | k in old(clients) && old(clients)[k] != client :: old(clients)[k]
      ensures client != null ==> client.disposed == (old(client.disposed) || client in old(clients).Values)
    {
      if client == null {
        return;
      }
      var keys := KeySnapshot();
      var i := 0;
      while i < |keys|
        invariant 0 <= i <= |keys|
        invariant clients == old(clients) && client.disposed == old(client.disposed)
        invariant forall j :: 0 <= j < i ==> clients[keys[j]] != client
      {
        if clients[keys[i]] == client {
          RemoveOnly(clients, keys[i]);
          clients := clients - {keys[i]};
          client.Dispose();
          return;
        }
        i := i + 1;
      }
      forall k | k in clients
        ensures clients[k] != client
      {
        var j :| 0 <= j < |keys| && keys[j] == k;
      }
    }


    /**
     * One accepted connection: rejected and disposed when the registry is
     * full, disposed when its socket is not connected, and otherwise
     * registered under the next id.
     */
    method Admit(client: NetworkClient) returns (admission: Admission)
      requires Valid() && client !in clients.Values
      modifies this, client
      ensures Valid() && lastClientId >= old(lastClientId)
      ensures old(|clients|) >= MaxClientCount ==>
        && admission == RejectedMax && client.disposed
        && clients == old(clients) && lastClientId == old(lastClientId)
      ensures old(|clients|) < MaxClientCount && !client.IsConnected ==>
        && admission == NotCompleted && client.disposed
        && clients == old(clients) && lastClientId == old(lastClientId)
      ensures old(|clients|) < MaxClientCount && client.IsConnected ==>
        && admission == Registered(old(lastClientId) + 1)
        && lastClientId == old(lastClientId) + 1
        && (forall k :: k in old(clients) ==> k < lastClientId)
        && clients == old(clients)[lastClientId := client]
        && client.disposed == old(client.disposed)
      ensures old(clients.Values) <= clients.Values <= old(clients.Values) + {client}
    {
      if |clients| >= MaxClientCount {
        client.Dispose();
        return RejectedMax;
      }
      if !client.IsConnected {
        client.Dispose();
        return NotCompleted;
      }
      lastClientId := lastClientId + 1;
      clients := clients[lastClientId := client];
      admission := Registered(lastClientId);
    }

    /** The `finally` block: dispose every registered client and clear the registry. */
    method ShutDown()
      requires Valid()
      modifies this, clients.Values
      ensures Valid() && clients == map[] && lastClientId == old(lastClientId)
      ensures forall c :: c in old(clients.Values) ==> c.disposed
    {
      var snapshot := Clients();
      var i := 0;
      while i < |snapshot|
        invariant 0 <= i <= |snapshot|
        invariant clients == old(clients) && lastClientId == old(lastClientId)
        invariant forall j :: 0 <= j < i ==> snapshot[j].disposed
      {
        snapshot[i].Dispose();
        i := i + 1;
      }
      clients := map[];
    }

    /** The accepted events from `i` on are neither registered nor disposed yet. */
    ghost predicate Pending(events: seq<AcceptEvent>, i: nat)
      reads this, EventClients(events)
    {
      forall j :: i <= j < |events| && events[j].Accepted? ==>
        events[j].client !in clients.Values && !events[j].client.disposed
    }

    /**
     * Each of the first `i` events (all accepted) ended registered or
     * disposed, not both, and only a connected client was registered.
     */
    ghost predicate Settled(events: seq<AcceptEvent>, i: nat)
      reads this, EventClients(events)
    {
      forall j :: 0 <= j < i && j < |events| && events[j].Accepted? ==>
        && (events[j].client in clients.Values <==> !events[j].client.disposed)
        && (events[j].client in clients.Values ==> events[j].client.IsConnected)
    }

    /** One pass of the accept loop: admit the `i`-th accepted client. */
    method AdmitEvent(events: seq<AcceptEvent>, i: nat)
      requires i < |events| && events[i].Accepted?
      requires Valid() && DistinctClients(events) && Pending(events, i) && Settled(events, i)
      modifies this, events[i].client
      ensures Valid() && lastClientId >= old(lastClientId)
      ensures old(clients.Values) <= clients.Values <= old(clients.Values) + {events[i].client}
      ensures Pending(events, i + 1) && Settled(events, i + 1)
    {
      var client := events[i].client;
      assert forall j :: 0 <= j < |events| && j != i && events[j].Accepted? ==> events[j].client != client;
      var _ := Admit(client);
    }

    /**
     * The accept loop: admit each accepted connection until the token is
     * cancelled, which ends the loop quietly, or the accept fails, which is
     * rethrown. Every client it consumed ends either registered or disposed,
     * never both; only connected clients are registered, and only clients it
     * consumed join the registry.
     */
    method AcceptLoop(events: seq<AcceptEvent>) returns (completion: Completion)
      requires Valid() && NewClients(events, clients) && Undisposed(events)
      modifies this, EventClients(events)
      ensures Valid() && lastClientId >= old(lastClientId)
      ensures old(clients.Values) <= clients.Values <= old(clients.Values) + ConsumedClients(events, StopIndex(events))
      ensures forall i :: 0 <= i < StopIndex(events) ==>
        && (events[i].client in clients.Values <==> !events[i].client.disposed)
        && (events[i].client in clients.Values ==> events[i].client.IsConnected)
        && (!events[i].client.IsConnected ==> events[i].client.disposed && events[i].client !in clients.Values)
      ensures completion == Rethrown <==> StopIndex(events) < |events| && events[StopIndex(events)].Failed?
    {
      // The accept loop runs until the first event that is not an accepted
      // connection: a cancellation (quiet) or a failure (rethrown).
      var n := StopIndex(events);
      for i := 0 to n
        invariant Valid() && lastClientId >= old(lastClientId)
        invariant old(clients.Values) <= clients.Values <= old(clients.Values) + ConsumedClients(events, i)
        invariant Pending(events, i)
        invariant Settled(events, i)
      {
        AdmitEvent(events, i);
        ConsumedClientsStep(events, i);
      }
      completion := if n < |events| && events[n].Failed? then Rethrown else Stopped;
    }

    /**
     * `ExecuteAsync`: run the accept loop unless the listener failed to
     * start, which is rethrown; in every case the registry ends empty with
     * every client it held disposed.
     */
    method ExecuteAsync(startFault: bool, events: seq<AcceptEvent>) returns (completion: Completion)
      requires Valid() && NewClients(events, clients) && Undisposed(events)
      modifies this, clients.Values, EventClients(events)
      ensures Valid() && clients == map[] && lastClientId >= old(lastClientId)
      ensures forall c :: c in old(clients.Values) ==> c.disposed
      ensures !startFault ==> forall i :: 0 <= i < StopIndex(events) ==> events[i].client.disposed
      ensures completion == Rethrown <==>
        startFault || (StopIndex(events) < |events| && events[StopIndex(events)].Failed?)
    {
      if startFault {
        completion := Rethrown;
      } else {
        completion := AcceptLoop(events);
      }
      ShutDown();
    }
  }
}
