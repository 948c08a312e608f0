/** Connection and abuse accounting of internal/validation/ratelimit.go. The clock is read once
    per call, and each token bucket's answer is a parameter. */
module RateLimiting {
  import opened MapSums

  datatype Config = Config(
    maxConnections: int,
    maxConnectionsPerIP: int,
    clientExpiry: int,
    autoBlockThreshold: int,
    autoBlockDuration: int)

  datatype Client = Client(
    ip: string,
    connections: int,
    lastSeen: int,
    totalRequests: int,
    totalMessages: int,
    violations: int,
    blocked: bool,
    blockedUntil: int)

  const ZERO_TIME := 0

  type Clients = map<string, Client>

  function NewClient(ip: string, now: int): Client {
    Client(ip, 0, now, 0, 0, 0, false, ZERO_TIME)
  }

  function ConnectionsOf(m: Clients, id: string): int {
    if id in m then m[id].connections else 0
  }

  function AllConnections(m: Clients): map<string, int> {
    map id | id in m :: m[id].connections
  }

  function ConnectionsFrom(m: Clients, ip: string): map<string, int> {
    map id | id in m && m[id].ip == ip :: m[id].connections
  }

  ghost function Total(m: Clients): int {
    Sum(AllConnections(m))
  }

  ghost function TotalForIP(m: Clients, ip: string): int {
    Sum(ConnectionsFrom(m, ip))
  }

  datatype Result = Result(allowed: bool, clients: Clients)

  ghost function RequestResult(c: Config, m: Clients, id: string, ip: string, now: int,
                              globalTokens: bool, clientTokens: bool): Result {
    if !globalTokens then Result(false, m)
    else
      var seen := (if id in m then m[id] else NewClient(ip, now)).(lastSeen := now);
      if seen.blocked && now < seen.blockedUntil then Result(false, m[id := seen])
      else
        var client := if seen.blocked && now > seen.blockedUntil
                      then seen.(blocked := false, blockedUntil := ZERO_TIME) else seen;
        if !clientTokens then
          var violator := client.(violations := client.violations + 1);
          Result(false, m[id := if violator.violations >= c.autoBlockThreshold
                                then violator.(blocked := true, blockedUntil := now + c.autoBlockDuration)
                                else violator])
        else if TotalForIP(m, ip) >= c.maxConnectionsPerIP then Result(false, m[id := client])
        else Result(true, m[id := client.(totalRequests := client.totalRequests + 1)])
  }

  function MessageResult(m: Clients, id: string, now: int, messageTokens: bool): Result {
    if id !in m then Result(false, m)
    else
      var client := m[id];
      if client.blocked && now < client.blockedUntil then Result(false, m)
      else if !messageTokens then Result(false, m[id := client.(violations := client.violations + 1)])
      else Result(true, m[id := client.(totalMessages := client.totalMessages + 1)])
  }

  ghost predicate HasRoom(c: Config, m: Clients, ip: string) {
    Total(m) < c.maxConnections && TotalForIP(m, ip) < c.maxConnectionsPerIP
  }

  ghost function ConnectResult(c: Config, m: Clients, id: string, ip: string, now: int): Result {
    if !HasRoom(c, m, ip) then Result(false, m)
    else
      var client := if id in m then m[id] else NewClient(ip, now);
      Result(true, m[id := client.(connections := client.connections + 1, lastSeen := now)])
  }

  function Removed(m: Clients, id: string, now: int): Clients {
    if id !in m then m
    else
      var left := m[id].connections - 1;
      m[id := m[id].(connections := if left < 0 then 0 else left, lastSeen := now)]
  }

  function Blocked(m: Clients, id: string, now: int, duration: int): Clients {
    if id in m then m[id := m[id].(blocked := true, blockedUntil := now + duration)] else m
  }

  function Unblocked(m: Clients, id: string): Clients {
    if id in m then m[id := m[id].(blocked := false, blockedUntil := ZERO_TIME)] else m
  }

  predicate Expired(c: Config, client: Client, now: int) {
    now - client.lastSeen > c.clientExpiry && client.connections == 0
  }

  function Cleaned(c: Config, m: Clients, now: int): Clients {
    map id | id in m && !Expired(c, m[id], now) :: m[id]
  }

  class RateLimiter {
    const config: Config
    var clients: Clients

    constructor (config: Config)
      ensures this.config == config && clients == map[]
    {
      this.config := config;
      clients := map[];
    }

    method AllowRequest(id: string, ip: string, now: int, globalTokens: bool, clientTokens: bool)
      returns (allowed: bool)
      modifies this
      ensures Result(allowed, clients)
           == RequestResult(config, old(clients), id, ip, now, globalTokens, clientTokens)
    {
      if !globalTokens {
        return false;
      }
      var client := if id in clients then clients[id] else NewClient(ip, now);
      client := client.(lastSeen := now);
      if client.blocked && now < client.blockedUntil {
        clients := clients[id := client];
        return false;
      } else if client.blocked && now > client.blockedUntil {
        client := client.(blocked := false, blockedUntil := ZERO_TIME);
      }
      if !clientTokens {
        client := client.(violations := client.violations + 1);
        if client.violations >= config.autoBlockThreshold {
          client := client.(blocked := true, blockedUntil := now + config.autoBlockDuration);
        }
        clients := clients[id := client];
        return false;
      }
      clients := clients[id := client];
      SameTotals(old(clients), id, client, ip);
      var count := CountConnectionsForIP(ip);
      allowed := count < config.maxConnectionsPerIP;
      if allowed {
        clients := clients[id := client.(totalRequests := client.totalRequests + 1)];
      }
    }

    method AllowMessage(id: string, now: int, messageTokens: bool) returns (allowed: bool)
      modifies this
      ensures Result(allowed, clients) == MessageResult(old(clients), id, now, messageTokens)
    {
      if id !in clients {
        return false;
      }
      if clients[id].blocked && now < clients[id].blockedUntil {
        return false;
      }
      if !messageTokens {
        clients := clients[id := clients[id].(violations := clients[id].violations + 1)];
        return false;
      }
      clients := clients[id := clients[id].(totalMessages := clients[id].totalMessages + 1)];
      return true;
    }

    method AddConnection(id: string, ip: string, now: int) returns (allowed: bool)
      modifies this
      ensures Result(allowed, clients) == ConnectResult(config, old(clients), id, ip, now)
    {
      var total := GetTotalConnections();
      if total >= config.maxConnections {
        return false;
      }
      var count := CountConnectionsForIP(ip);
      if count >= config.maxConnectionsPerIP {
        return false;
      }
      if id !in clients {
        clients := clients[id := NewClient(ip, now)];
      }
      clients := clients[id := clients[id].(connections := clients[id].connections + 1)];
      clients := clients[id := clients[id].(lastSeen := now)];
      return true;
    }

    method RemoveConnection(id: string, now: int)
      modifies this
      ensures clients == Removed(old(clients), id, now)
    {
      if id in clients {
        clients := clients[id := clients[id].(connections := clients[id].connections - 1)];
        if clients[id].connections < 0 {
          clients := clients[id := clients[id].(connections := 0)];
        }
        clients := clients[id := clients[id].(lastSeen := now)];
      }
    }

    method BlockClient(id: string, now: int, duration: int)
      modifies this
      ensures clients == Blocked(old(clients), id, now, duration)
    {
      if id in clients {
        clients := clients[id := clients[id].(blocked := true, blockedUntil := now + duration)];
      }
    }

    method UnblockClient(id: string)
      modifies this
      ensures clients == Unblocked(old(clients), id)
    {
      if id in clients {
        clients := clients[id := clients[id].(blocked := false, blockedUntil := ZERO_TIME)];
      }
    }

    method Cleanup(now: int)
      modifies this
      ensures clients == Cleaned(config, old(clients), now)
    {
      var unvisited := clients.Keys;
      while unvisited != {}
        invariant unvisited <= clients.Keys <= old(clients).Keys
        invariant forall k :: k in clients ==> clients[k] == old(clients)[k]
        invariant forall k :: k in old(clients) && k !in unvisited ==>
          (k in clients <==> !Expired(config, old(clients)[k], now))
        decreases unvisited
      {
        var id :| id in unvisited;
        unvisited := unvisited - {id};
        if now - clients[id].lastSeen > config.clientExpiry && clients[id].connections == 0 {
          clients := clients - {id};
        }
      }
    }

    method GetTotalConnections() returns (total: int)
      ensures total == Total(clients)
    {
      total := 0;
      ghost var all := AllConnections(clients);
      var unvisited := clients.Keys;
      assert Restrict(all, unvisited) == all;
      while unvisited != {}
        invariant unvisited <= clients.Keys
        invariant total + Sum(Restrict(all, unvisited)) == Sum(all)
        decreases unvisited
      {
        var id :| id in unvisited;
        ghost var rest := Restrict(all, unvisited);
        SumRemove(rest, id);
        unvisited := unvisited - {id};
        assert rest - {id} == Restrict(all, unvisited);
        total := total + clients[id].connections;
      }
      assert Restrict(all, unvisited) == map[];
    }

    method CountConnectionsForIP(ip: string) returns (count: int)
      ensures count == TotalForIP(clients, ip)
    {
      count := 0;
      ghost var all := ConnectionsFrom(clients, ip);
      var unvisited := clients.Keys;
      assert Restrict(all, unvisited) == all;
      while unvisited != {}
        invariant unvisited <= clients.Keys
        invariant count + Sum(Restrict(all, unvisited)) == Sum(all)
        decreases unvisited
      {
        var id :| id in unvisited;
        ghost var rest := Restrict(all, unvisited);
        unvisited := unvisited - {id};
        if clients[id].ip == ip {
          SumRemove(rest, id);
          assert rest - {id} == Restrict(all, unvisited);
          count := count + clients[id].connections;
        } else {
          assert rest == Restrict(all, unvisited);
        }
      }
      assert Restrict(all, unvisited) == map[];
    }
  }

  // ---------------------------------------------------------------------------------------
  // How one entry's change moves the totals.

  lemma TotalsUpdate(m: Clients, id: string, client: Client)
    requires id in m ==> client.ip == m[id].ip
    ensures Total(m[id := client]) == Total(m) - ConnectionsOf(m, id) + client.connections
    ensures forall ip :: TotalForIP(m[id := client], ip)
                      == TotalForIP(m, ip) + if ip == client.ip then client.connections - ConnectionsOf(m, id) else 0
  {
    var m' := m[id := client];
    SumUpdate(AllConnections(m), id, client.connections);
    assert AllConnections(m') == AllConnections(m)[id := client.connections];
    forall ip
      ensures TotalForIP(m', ip)
           == TotalForIP(m, ip) + if ip == client.ip then client.connections - ConnectionsOf(m, id) else 0
    {
      if ip == client.ip {
        SumUpdate(ConnectionsFrom(m, ip), id, client.connections);
        assert ConnectionsFrom(m', ip) == ConnectionsFrom(m, ip)[id := client.connections];
      } else {
        assert ConnectionsFrom(m', ip) == ConnectionsFrom(m, ip);
      }
    }
  }

  /** An entry that keeps its address and connections, or is new and has none, moves no total. */
  lemma SameTotals(m: Clients, id: string, client: Client, ip: string)
    requires id in m ==> client.ip == m[id].ip
    requires client.connections == ConnectionsOf(m, id)
    ensures TotalForIP(m[id := client], ip) == TotalForIP(m, ip)
    ensures Total(m[id := client]) == Total(m)
  {
    TotalsUpdate(m, id, client);
  }

  lemma CleanupKeepsTotals(c: Config, m: Clients, now: int)
    ensures Total(Cleaned(c, m, now)) == Total(m)
    ensures forall ip :: TotalForIP(Cleaned(c, m, now), ip) == TotalForIP(m, ip)
    ensures forall id :: ConnectionsOf(Cleaned(c, m, now), id) == ConnectionsOf(m, id)
  {
    var m' := Cleaned(c, m, now);
    SumIgnoresZeros(AllConnections(m), AllConnections(m'));
    forall ip ensures TotalForIP(m', ip) == TotalForIP(m, ip) {
      SumIgnoresZeros(ConnectionsFrom(m, ip), ConnectionsFrom(m', ip));
    }
  }
}
