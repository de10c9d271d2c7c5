/** The exchange client pool (exchange/exchange-client-pool.ts) and its users getClient,
    getDefaultClient and getPublicClient (exchange/base-exchange.service.ts). Code between two
    awaits is one atomic step; a run is any interleaving of such steps of any number of calls. */
module ClientPool {
  import opened Common

  const CLIENT_TTL_MS: int := 30 * 60 * 1000
  const PERMANENT_KEYS: set<string> := {"default", "public"}

  /** Clients are numbered in creation order. */
  type Client = nat

  function UserKey(userId: string): string {
    "user-" + userId
  }

  lemma UserKeyNotPermanent(userId: string)
    ensures UserKey(userId) !in PERMANENT_KEYS
  {
    assert UserKey(userId)[0] == 'u' && "default"[0] == 'd' && "public"[0] == 'p';
  }

  /** The pool's three maps, the clients created so far (0, ..., created - 1) and those closed. */
  datatype Pool = Pool(clients: map<string, Client>, lastUsed: map<string, int>,
                       pending: map<string, Client>, created: nat, closed: set<Client>)

  const EMPTY: Pool := Pool(map[], map[], map[], 0, {})

  // ---------------------------------------------------------------- pool operations on values

  predicate Stale(p: Pool, key: string, now: int) {
    key in p.lastUsed && key !in PERMANENT_KEYS && now - p.lastUsed[key] > CLIENT_TTL_MS
  }

  /** The pool once the stale keys among `visited` are evicted and their clients closed. */
  ghost function EvictedAmong(p: Pool, visited: set<string>, now: int): Pool {
    p.(clients := map k | k in p.clients && !(k in visited && Stale(p, k, now)) :: p.clients[k],
       lastUsed := map k | k in p.lastUsed && !(k in visited && Stale(p, k, now)) :: p.lastUsed[k],
       closed := p.closed + set k | k in p.clients && k in visited && Stale(p, k, now) :: p.clients[k])
  }

  ghost function Evicted(p: Pool, now: int): Pool {
    EvictedAmong(p, p.lastUsed.Keys, now)
  }

  lemma NothingEvicted(p: Pool, now: int)
    ensures EvictedAmong(p, {}, now) == p
  {
    assert EvictedAmong(p, {}, now).clients == p.clients;
    assert EvictedAmong(p, {}, now).lastUsed == p.lastUsed;
  }

  function KeyEvicted(p: Pool, key: string): Pool {
    p.(clients := p.clients - {key}, lastUsed := p.lastUsed - {key},
       closed := if key in p.clients then p.closed + {p.clients[key]} else p.closed)
  }

  lemma EvictOneMore(p: Pool, visited: set<string>, key: string, now: int)
    requires key in p.lastUsed && key !in visited
    ensures var q := EvictedAmong(p, visited, now);
            && key in q.lastUsed && q.lastUsed[key] == p.lastUsed[key]
            && EvictedAmong(p, visited + {key}, now) == if Stale(p, key, now) then KeyEvicted(q, key) else q
  {
    var q, r := EvictedAmong(p, visited, now), EvictedAmong(p, visited + {key}, now);
    var expected := if Stale(p, key, now) then KeyEvicted(q, key) else q;
    assert r.clients == expected.clients;
    assert r.lastUsed == expected.lastUsed;
    assert r.closed == expected.closed;
  }

  function Stored(p: Pool, key: string, client: Client, now: int): Pool {
    p.(clients := p.clients[key := client], lastUsed := p.lastUsed[key := now])
  }

  /** getDefaultClient and getPublicClient: reuse, wait for a pending creation, or create. */
  function SharedClient(p: Pool, key: string, configured: bool, now: int): (Pool, Option<Client>) {
    if key in p.clients then (p, Some(p.clients[key]))
    else if key in p.pending then (p, Some(p.pending[key]))
    else if !configured then (p, None)
    else (Stored(p, key, p.created, now).(created := p.created + 1, pending := p.pending - {key}),
          Some(p.created))
  }

  /** The stretch of getClient after the user's keys were found. */
  function UserClient(p: Pool, key: string, now: int): (Pool, Client) {
    if key in p.clients then (p.(lastUsed := p.lastUsed[key := now]), p.clients[key])
    else if key in p.pending then (p, p.pending[key])
    else (Stored(p, key, p.created, now).(created := p.created + 1, pending := p.pending[key := p.created]),
          p.created)
  }

  // ---------------------------------------------------------------- the classes

  class ExchangeClientPool {
    var clients: map<string, Client>
    var clientLastUsed: map<string, int>
    var pendingCreations: map<string, Client>
    var created: nat
    var closed: set<Client>

    constructor ()
      ensures View() == EMPTY
    {
      clients, clientLastUsed, pendingCreations, created, closed := map[], map[], map[], 0, {};
    }

    ghost function View(): Pool
      reads this
    {
      Pool(clients, clientLastUsed, pendingCreations, created, closed)
    }

    method Touch(key: string, now: int)
      modifies this
      ensures View() == old(View()).(lastUsed := old(clientLastUsed)[key := now])
    {
      clientLastUsed := clientLastUsed[key := now];
    }

    method Set(key: string, client: Client, now: int)
      modifies this
      ensures View() == Stored(old(View()), key, client, now)
    {
      clients := clients[key := client];
      Touch(key, now);
    }

    method Create() returns (client: Client)
      modifies this
      ensures client == old(created) && View() == old(View()).(created := old(created) + 1)
    {
      client := created;
      created := created + 1;
    }

    /** Close the client of a key, if it has one, and forget the key. */
    method EvictKey(key: string)
      modifies this
      ensures View() == KeyEvicted(old(View()), key)
    {
      if key in clients {
        closed := closed + {clients[key]};
      }
      clients := clients - {key};
      clientLastUsed := clientLastUsed - {key};
    }

    /** evictStale: one pass over the keys of clientLastUsed, deleting while iterating. */
    method EvictStale(now: int)
      modifies this
      ensures View() == Evicted(old(View()), now)
    {
      ghost var before := View();
      ghost var visited: set<string> := {};
      var remaining := clientLastUsed.Keys;
      NothingEvicted(before, now);
      while remaining != {}
        invariant visited + remaining == before.lastUsed.Keys && visited !! remaining
        invariant View() == EvictedAmong(before, visited, now)
        decreases |remaining|
      {
        var key :| key in remaining;
        EvictOneMore(before, visited, key, now);
        visited := visited + {key};
        remaining := remaining - {key};
        var lastUsed := clientLastUsed[key];
        if key !in PERMANENT_KEYS && now - lastUsed > CLIENT_TTL_MS {
          EvictKey(key);
        }
      }
      assert visited == before.lastUsed.Keys;
    }
  }

  class BaseExchangeService {
    const pool: ExchangeClientPool

    constructor ()
      ensures fresh(pool) && pool.View() == EMPTY
    {
      pool := new ExchangeClientPool();
    }

    /** getDefaultClient ("default") and getPublicClient ("public", always configured). */
    method GetSharedClient(key: string, configured: bool, now: int) returns (client: Option<Client>)
      modifies pool
      ensures (pool.View(), client) == SharedClient(old(pool.View()), key, configured, now)
    {
      if key in pool.clients {
        return Some(pool.clients[key]);
      }
      if key in pool.pendingCreations {
        return Some(pool.pendingCreations[key]);
      }
      if !configured {
        return None;
      }
      var c := pool.Create();
      pool.Set(key, c, now);
      pool.pendingCreations := pool.pendingCreations - {key};
      return Some(c);
    }

    /** getClient from the point where the user's keys are decrypted to its next await. */
    method ResumeGetClient(userId: string, now: int) returns (client: Client)
      modifies pool
      ensures (pool.View(), client) == UserClient(old(pool.View()), UserKey(userId), now)
    {
      var clientKey := UserKey(userId);
      if clientKey in pool.clients {
        pool.Touch(clientKey, now);
        return pool.clients[clientKey];
      }
      if clientKey in pool.pendingCreations {
        return pool.pendingCreations[clientKey];
      }
      client := pool.Create();
      pool.Set(clientKey, client, now);
      pool.pendingCreations := pool.pendingCreations[clientKey := client];
    }
  }

  // ---------------------------------------------------------------- interleavings

  /** Where a getClient call is suspended. */
  datatype Call = AwaitingKeys(userId: string) | AwaitingCreation(userId: string, client: Client, since: int)

  datatype System = System(pool: Pool, calls: map<nat, Call>)

  datatype Step =
    | Begin(call: nat, userId: Option<string>, configured: bool, now: int)
    | Resume(call: nat, keysFound: bool, now: int)
    | Settle(call: nat, now: int)
    | GetPublic(now: int)

  predicate Enabled(s: System, step: Step) {
    match step
    case Begin(call, _, _, _) => call !in s.calls
    case Resume(call, _, _) => call in s.calls && s.calls[call].AwaitingKeys?
    case Settle(call, _) => call in s.calls && s.calls[call].AwaitingCreation?
    case GetPublic(_) => true
  }

  /** One atomic step and the client it hands to a caller, if any. */
  ghost function Next(s: System, step: Step): (System, Option<Client>)
    requires Enabled(s, step)
  {
    match step
    case Begin(call, userId, configured, now) =>
      var evicted := Evicted(s.pool, now);
      if userId.None? then
        var (pool, client) := SharedClient(evicted, "default", configured, now);
        (System(pool, s.calls), client)
      else (System(evicted, s.calls[call := AwaitingKeys(userId.value)]), None)
    case Resume(call, keysFound, now) =>
      var userId := s.calls[call].userId;
      var key := UserKey(userId);
      if !keysFound then (System(s.pool, s.calls - {call}), None)
      else
        var (pool, client) := UserClient(s.pool, key, now);
        if pool.created > s.pool.created then
          (System(pool, s.calls[call := AwaitingCreation(userId, client, now)]), None)
        else (System(pool, s.calls - {call}), Some(client))
    case Settle(call, now) =>
      (System(s.pool.(pending := s.pool.pending - {UserKey(s.calls[call].userId)}), s.calls - {call}),
       Some(s.calls[call].client))
    case GetPublic(now) =>
      var (pool, client) := SharedClient(s.pool, "public", true, now);
      (System(pool, s.calls), client)
  }

  /** Every created client is pooled or closed. */
  ghost predicate NoneLost(p: Pool) {
    forall c: Client :: c < p.created && c !in p.closed ==> c in p.clients.Values
  }

  /** The pool holds exactly the clients that were created and not closed, each under one key. */
  ghost predicate PoolInv(p: Pool) {
    && p.clients.Keys == p.lastUsed.Keys
    && (forall k :: k in p.clients ==> p.clients[k] < p.created && p.clients[k] !in p.closed)
    && (forall j, k :: j in p.clients && k in p.clients && p.clients[j] == p.clients[k] ==> j == k)
    && NoneLost(p)
    && (forall c :: c in p.closed ==> c < p.created)
    && (forall k :: k in p.pending ==> k !in PERMANENT_KEYS && p.pending[k] < p.created)
    && (forall k :: k in p.pending ==> p.pending[k] in p.closed || (k in p.clients && p.clients[k] == p.pending[k]))
  }

  ghost predicate Inv(s: System) {
    PoolInv(s.pool) && CallsInv(s)
  }

  lemma EvictedInv(p: Pool, now: int)
    requires PoolInv(p)
    ensures PoolInv(Evicted(p, now))
  {
    var q := Evicted(p, now);
    forall c: Client | c < q.created && c !in q.closed ensures c in q.clients.Values {
      assert c in p.clients.Values;
      var k :| k in p.clients && p.clients[k] == c;
      assert k in q.clients && q.clients[k] == c;
    }
  }

  function Added(p: Pool, key: string, now: int): Pool {
    Stored(p, key, p.created, now).(created := p.created + 1)
  }

  lemma AddedLosesNone(p: Pool, key: string, now: int)
    requires PoolInv(p) && key !in p.clients
    ensures NoneLost(Added(p, key, now))
  {
    var q := Added(p, key, now);
    forall c: Client | c < q.created && c !in q.closed ensures c in q.clients.Values {
      if c < p.created {
        assert c in p.clients.Values;
        var k :| k in p.clients && p.clients[k] == c;
        assert q.clients[k] == c;
      } else {
        assert q.clients[key] == c;
      }
    }
  }

  lemma AddedKeys(p: Pool, key: string, now: int)
    requires PoolInv(p) && key !in p.clients
    ensures Added(p, key, now).clients.Keys == Added(p, key, now).lastUsed.Keys
  {
    assert Added(p, key, now).clients.Keys == p.clients.Keys + {key};
    assert Added(p, key, now).lastUsed.Keys == p.clients.Keys + {key};
  }

  lemma AddedInv(p: Pool, key: string, now: int)
    requires PoolInv(p) && key !in p.clients && key !in p.pending
    ensures PoolInv(Added(p, key, now))
  {
    AddedKeys(p, key, now);
    AddedLosesNone(p, key, now);
  }

  lemma SharedClientInv(p: Pool, key: string, configured: bool, now: int)
    requires PoolInv(p) && key in PERMANENT_KEYS
    ensures PoolInv(SharedClient(p, key, configured, now).0)
    ensures SharedClient(p, key, configured, now).0.created >= p.created
  {
    if key !in p.clients && configured {
      AddedInv(p, key, now);
      assert p.pending - {key} == p.pending;
    }
  }

  lemma PendingInv(p: Pool, key: string)
    requires PoolInv(p) && key in p.clients && key !in PERMANENT_KEYS
    ensures PoolInv(p.(pending := p.pending[key := p.clients[key]]))
  {
  }

  lemma TouchedInv(p: Pool, key: string, now: int)
    requires PoolInv(p) && key in p.clients
    ensures PoolInv(p.(lastUsed := p.lastUsed[key := now]))
  {
    assert p.lastUsed[key := now].Keys == p.lastUsed.Keys;
  }

  lemma UserClientInv(p: Pool, userId: string, now: int)
    requires PoolInv(p)
    ensures var (q, client) := UserClient(p, UserKey(userId), now);
            PoolInv(q) && q.created >= p.created && client < q.created
  {
    var key := UserKey(userId);
    UserKeyNotPermanent(userId);
    if key in p.clients {
      TouchedInv(p, key, now);
    } else if key !in p.pending {
      AddedInv(p, key, now);
      PendingInv(Added(p, key, now), key);
      assert UserClient(p, key, now).0 == Added(p, key, now).(pending := p.pending[key := p.created]);
    }
  }

  ghost predicate CallsInv(s: System) {
    forall i :: i in s.calls && s.calls[i].AwaitingCreation? ==> s.calls[i].client < s.pool.created
  }

  lemma CallsInvStep(s: System, step: Step)
    requires CallsInv(s) && Enabled(s, step)
    requires step.Resume? ==> UserClient(s.pool, UserKey(s.calls[step.call].userId), step.now).1
                              < UserClient(s.pool, UserKey(s.calls[step.call].userId), step.now).0.created
    ensures CallsInv(Next(s, step).0)
  {
  }

  lemma SettledInv(p: Pool, key: string)
    requires PoolInv(p)
    ensures PoolInv(p.(pending := p.pending - {key}))
  {
  }

  lemma InvStep(s: System, step: Step)
    requires Inv(s) && Enabled(s, step)
    ensures Inv(Next(s, step).0)
  {
    match step {
      case Begin(call, userId, configured, now) =>
        EvictedInv(s.pool, now);
        SharedClientInv(Evicted(s.pool, now), "default", configured, now);
      case Resume(call, keysFound, now) =>
        UserClientInv(s.pool, s.calls[call].userId, now);
      case Settle(call, now) =>
        SettledInv(s.pool, UserKey(s.calls[call].userId));
      case GetPublic(now) =>
        SharedClientInv(s.pool, "public", true, now);
    }
    CallsInvStep(s, step);
  }

  // ---------------------------------------------------------------- runs

  /** `systems[i]` is the system before step `i`; clock readings never decrease. */
  datatype Run = Run(systems: seq<System>, steps: seq<Step>)

  ghost predicate StepAt(run: Run, i: nat)
    requires i < |run.steps| && |run.systems| == |run.steps| + 1
  {
    Enabled(run.systems[i], run.steps[i]) && Next(run.systems[i], run.steps[i]).0 == run.systems[i + 1]
  }

  ghost predicate ValidRun(run: Run) {
    && |run.systems| == |run.steps| + 1
    && run.systems[0] == System(EMPTY, map[])
    && (forall i :: 0 <= i < |run.steps| ==> StepAt(run, i))
    && (forall i, j :: 0 <= i <= j < |run.steps| ==> run.steps[i].now <= run.steps[j].now)
  }

  /** Under every interleaving: the client map and the last-used map have the same keys, each key has
      one live client, and every client ever created is either pooled or closed. */
  lemma {:induction false} InvAlways(run: Run, n: nat)
    requires ValidRun(run) && n < |run.systems|
    ensures Inv(run.systems[n])
    ensures var p := run.systems[n].pool;
            forall c: Client :: c < p.created ==> (c in p.clients.Values <==> c !in p.closed)
  {
    if n > 0 {
      InvAlways(run, n - 1);
      assert StepAt(run, n - 1);
      InvStep(run.systems[n - 1], run.steps[n - 1]);
    }
  }

  /** `key` still names the same client, used no earlier than before. */
  ghost predicate Kept(p: Pool, q: Pool, key: string, now: int)
    requires key in p.clients && key in p.lastUsed
  {
    && key in q.clients && q.clients[key] == p.clients[key]
    && key in q.lastUsed && (q.lastUsed[key] == p.lastUsed[key] || q.lastUsed[key] == now)
  }

  lemma KeyKept(s: System, step: Step, key: string)
    requires Enabled(s, step)
    requires key in s.pool.clients && key in s.pool.lastUsed
    requires !Stale(s.pool, key, step.now)
    ensures Kept(s.pool, Next(s, step).0.pool, key, step.now)
  {
    match step
    case Begin(call, userId, configured, now) =>
      assert Kept(s.pool, Evicted(s.pool, now), key, now);
    case Resume(call, keysFound, now) =>
    case Settle(call, now) =>
    case GetPublic(now) =>
  }

  /** Permanent clients are never evicted: once pooled, the same client stays for the whole run. */
  lemma {:induction false} PermanentClientsStay(run: Run, key: string, i: nat, j: nat)
    requires ValidRun(run) && key in PERMANENT_KEYS && i <= j < |run.systems|
    requires key in run.systems[i].pool.clients
    ensures key in run.systems[j].pool.clients
    ensures run.systems[j].pool.clients[key] == run.systems[i].pool.clients[key]
  {
    if i < j {
      PermanentClientsStay(run, key, i, j - 1);
      InvAlways(run, j - 1);
      assert StepAt(run, j - 1);
      KeyKept(run.systems[j - 1], run.steps[j - 1], key);
    }
  }

  /** The pooled client of a key is the given one, and was last used at time t or later. */
  ghost predicate Pools(p: Pool, key: string, client: Client, t: int) {
    key in p.clients && p.clients[key] == client && key in p.lastUsed && p.lastUsed[key] >= t
  }

  lemma {:induction false} PoolsAlways(run: Run, key: string, client: Client, t: int, i: nat, j: nat)
    requires ValidRun(run) && i <= j < |run.systems| && Pools(run.systems[i].pool, key, client, t)
    requires i < j ==> t <= run.steps[i].now && run.steps[j - 1].now - t <= CLIENT_TTL_MS
    ensures Pools(run.systems[j].pool, key, client, t)
  {
    if i < j {
      assert run.steps[i].now <= run.steps[j - 1].now;
      assert i < j - 1 ==> run.steps[j - 2].now <= run.steps[j - 1].now;
      PoolsAlways(run, key, client, t, i, j - 1);
      InvAlways(run, j - 1);
      assert StepAt(run, j - 1);
      KeyKept(run.systems[j - 1], run.steps[j - 1], key);
    }
  }

  /** A client in use is safe: a pooled user client stays pooled, hence open, as long as no step of the
      run happens more than the idle limit after its last use. */
  lemma RecentClientStays(run: Run, key: string, i: nat, j: nat)
    requires ValidRun(run) && i <= j < |run.systems|
    requires key in run.systems[i].pool.clients
    requires key in run.systems[i].pool.lastUsed
    requires i < j ==> run.steps[j - 1].now - run.systems[i].pool.lastUsed[key] <= CLIENT_TTL_MS
    requires i < j ==> run.systems[i].pool.lastUsed[key] <= run.steps[i].now
    ensures key in run.systems[j].pool.clients
    ensures run.systems[j].pool.clients[key] == run.systems[i].pool.clients[key]
    ensures run.systems[j].pool.clients[key] !in run.systems[j].pool.closed
    ensures key in run.systems[j].pool.lastUsed
    ensures run.systems[j].pool.lastUsed[key] >= run.systems[i].pool.lastUsed[key]
  {
    var p := run.systems[i].pool;
    PoolsAlways(run, key, p.clients[key], p.lastUsed[key], i, j);
    InvAlways(run, j);
  }

  /** A step in which a call reuses or creates the client of its user. */
  ghost predicate UsesClient(s: System, step: Step, key: string)
    requires Enabled(s, step)
  {
    step.Resume? && step.keysFound && key == UserKey(s.calls[step.call].userId)
    && (key in s.pool.clients || key !in s.pool.pending)
  }

  /** A user client that a call reuses or creates is open then and stays the pooled client of its user,
      hence open, at every later point within the idle limit. */
  lemma UsedClientStaysOpen(run: Run, i: nat, j: nat, key: string)
    requires ValidRun(run) && i < j < |run.systems| && Enabled(run.systems[i], run.steps[i])
    requires UsesClient(run.systems[i], run.steps[i], key)
    requires run.steps[j - 1].now - run.steps[i].now <= CLIENT_TTL_MS
    ensures key in run.systems[i + 1].pool.clients && key in run.systems[j].pool.clients
    ensures run.systems[j].pool.clients[key] == run.systems[i + 1].pool.clients[key]
    ensures run.systems[j].pool.clients[key] !in run.systems[j].pool.closed
    ensures Next(run.systems[i], run.steps[i]).1.Some? ==>
              Next(run.systems[i], run.steps[i]).1.value == run.systems[i + 1].pool.clients[key]
  {
    assert StepAt(run, i);
    var p := run.systems[i + 1].pool;
    assert key in p.clients && key in p.lastUsed && p.lastUsed[key] == run.steps[i].now;
    assert i + 1 < j ==> run.steps[i].now <= run.steps[i + 1].now;
    RecentClientStays(run, key, i + 1, j);
  }

  /** A client handed out is open exactly when it is still pooled. */
  lemma HandedOutOpenIffPooled(s: System, step: Step)
    requires Inv(s) && Enabled(s, step) && Next(s, step).1.Some?
    ensures var (t, client) := Next(s, step);
            client.value < t.pool.created && (client.value !in t.pool.closed <==> client.value in t.pool.clients.Values)
  {
    InvStep(s, step);
  }

  /** After any getClient has begun, every pooled user client was used within the last thirty minutes, and
      each one that was not is closed. */
  lemma GetClientEvictsIdle(s: System, step: Step, key: string)
    requires Inv(s) && Enabled(s, step) && step.Begin?
    requires key in s.pool.clients && key != "default" && key != "public"
    ensures var t := Next(s, step).0;
            && key in s.pool.lastUsed
            && (key in t.pool.clients <==> step.now - s.pool.lastUsed[key] <= 30 * 60000)
            && (s.pool.clients[key] in t.pool.closed <==> step.now - s.pool.lastUsed[key] > 30 * 60000)
  {
    EvictsIdle(s.pool, key, step.now);
    DefaultLeavesOthers(Evicted(s.pool, step.now), key, step.configured, step.now);
  }

  lemma EvictsIdle(p: Pool, key: string, now: int)
    requires PoolInv(p) && key in p.clients && key != "default" && key != "public"
    ensures var q := Evicted(p, now);
            && key in p.lastUsed
            && (key in q.clients <==> now - p.lastUsed[key] <= 30 * 60000)
            && (p.clients[key] in q.closed <==> now - p.lastUsed[key] > 30 * 60000)
  {
  }

  lemma DefaultLeavesOthers(p: Pool, key: string, configured: bool, now: int)
    requires key != "default"
    ensures var q := SharedClient(p, "default", configured, now).0;
            (key in q.clients <==> key in p.clients) && q.closed == p.closed
  {
  }

  /** Exactly when a step hands out a client: the default one needs a configuration unless it is pooled;
      a user's call needs the user's keys and gets a client at once if there is one to share. */
  lemma HandsOutIff(s: System, step: Step)
    requires Inv(s) && Enabled(s, step)
    ensures Next(s, step).1.Some? <==>
              match step
              case Begin(_, userId, configured, _) => userId.None? && (configured || "default" in s.pool.clients)
              case Resume(call, keysFound, _) =>
                keysFound && (UserKey(s.calls[call].userId) in s.pool.clients
                              || UserKey(s.calls[call].userId) in s.pool.pending)
              case Settle(_, _) => true
              case GetPublic(_) => true
  {
  }

  // ---------------------------------------------------------------- whose client a call receives

  /** On whose behalf a client is created and handed out. */
  datatype Owner = Default | Public | User(userId: string)

  /** The owner that a pool key stands for. */
  function OwnerOfKey(key: string): Owner {
    if key == "default" then Default else if key == "public" then Public
    else User(if |key| >= 5 then key[5..] else key)
  }

  lemma OwnerOfUserKey(userId: string)
    ensures OwnerOfKey(UserKey(userId)) == User(userId)
  {
    UserKeyNotPermanent(userId);
    assert UserKey(userId)[5..] == userId;
  }

  /** Different users have different keys. */
  lemma UserKeyInjective(a: string, b: string)
    ensures UserKey(a) == UserKey(b) ==> a == b
  {
    OwnerOfUserKey(a);
    OwnerOfUserKey(b);
  }

  /** Whom a step serves. */
  function Serves(s: System, step: Step): Owner
    requires Enabled(s, step)
  {
    match step
    case Begin(_, userId, _, _) => if userId.None? then Default else User(userId.value)
    case Resume(call, _, _) => User(s.calls[call].userId)
    case Settle(call, _) => User(s.calls[call].userId)
    case GetPublic(_) => Public
  }

  /** Step i of the run creates client c while serving the owner. */
  ghost predicate CreatesFor(run: Run, i: nat, c: Client, owner: Owner)
    requires |run.systems| == |run.steps| + 1
  {
    && i < |run.steps| && Enabled(run.systems[i], run.steps[i]) && Serves(run.systems[i], run.steps[i]) == owner
    && run.systems[i].pool.created == c && run.systems[i + 1].pool.created == c + 1
  }

  ghost predicate CreatedFor(run: Run, n: nat, c: Client, owner: Owner)
    requires |run.systems| == |run.steps| + 1
  {
    exists i: nat :: i < n && CreatesFor(run, i, c, owner)
  }

  /** Every pooled, pending or awaited client was created for the owner it is kept for. */
  ghost predicate Owned(run: Run, n: nat)
    requires |run.systems| == |run.steps| + 1 && n < |run.systems|
  {
    var s := run.systems[n];
    && (forall k :: k in s.pool.clients ==> CreatedFor(run, n, s.pool.clients[k], OwnerOfKey(k)))
    && (forall k :: k in s.pool.pending ==> CreatedFor(run, n, s.pool.pending[k], OwnerOfKey(k)))
    && (forall i :: i in s.calls && s.calls[i].AwaitingCreation? ==>
          CreatedFor(run, n, s.calls[i].client, User(s.calls[i].userId)))
  }

  /** Client c is new in this step. */
  ghost predicate IsNew(s: System, step: Step, c: Client)
    requires Enabled(s, step)
  {
    c == s.pool.created && Next(s, step).0.pool.created == c + 1
  }

  lemma NextClients(s: System, step: Step, k: string)
    requires Enabled(s, step) && k in Next(s, step).0.pool.clients
    ensures var c := Next(s, step).0.pool.clients[k];
            (k in s.pool.clients && s.pool.clients[k] == c) || (IsNew(s, step, c) && OwnerOfKey(k) == Serves(s, step))
  {
    if step.Resume? { OwnerOfUserKey(s.calls[step.call].userId); }
  }

  lemma NextPending(s: System, step: Step, k: string)
    requires Enabled(s, step) && k in Next(s, step).0.pool.pending
    ensures var c := Next(s, step).0.pool.pending[k];
            (k in s.pool.pending && s.pool.pending[k] == c) || (IsNew(s, step, c) && OwnerOfKey(k) == Serves(s, step))
  {
    if step.Resume? { OwnerOfUserKey(s.calls[step.call].userId); }
  }

  lemma NextCalls(s: System, step: Step, i: nat)
    requires Enabled(s, step) && i in Next(s, step).0.calls && Next(s, step).0.calls[i].AwaitingCreation?
    ensures var call := Next(s, step).0.calls[i];
            || (i in s.calls && s.calls[i] == call)
            || (IsNew(s, step, call.client) && Serves(s, step) == User(call.userId))
  {
  }

  /** Where a client that a step hands out comes from. */
  lemma HandedFrom(s: System, step: Step) returns (k: string)
    requires Enabled(s, step) && Next(s, step).1.Some?
    ensures var c := Next(s, step).1.value;
            || (k in s.pool.clients && s.pool.clients[k] == c && OwnerOfKey(k) == Serves(s, step))
            || (k in s.pool.pending && s.pool.pending[k] == c && OwnerOfKey(k) == Serves(s, step))
            || (step.Settle? && s.calls[step.call].client == c)
            || IsNew(s, step, c)
  {
    match step
    case Begin(_, _, _, _) => k := "default";
    case GetPublic(_) => k := "public";
    case Resume(call, _, _) =>
      k := UserKey(s.calls[call].userId);
      OwnerOfUserKey(s.calls[call].userId);
    case Settle(call, _) => k := "";
  }

  lemma CreatedForLater(run: Run, n: nat, c: Client, owner: Owner)
    requires |run.systems| == |run.steps| + 1 && CreatedFor(run, n, c, owner)
    ensures CreatedFor(run, n + 1, c, owner)
  {
    var i: nat :| i < n && CreatesFor(run, i, c, owner);
    assert i < n + 1;
  }

  lemma CreatedNow(run: Run, n: nat, c: Client)
    requires ValidRun(run) && n < |run.steps| && Enabled(run.systems[n], run.steps[n])
    requires IsNew(run.systems[n], run.steps[n], c)
    ensures CreatedFor(run, n + 1, c, Serves(run.systems[n], run.steps[n]))
  {
    assert StepAt(run, n);
    assert CreatesFor(run, n, c, Serves(run.systems[n], run.steps[n]));
  }

  lemma OwnedStep(run: Run, n: nat)
    requires ValidRun(run) && n < |run.steps| && Owned(run, n)
    ensures Owned(run, n + 1)
  {
    assert StepAt(run, n);
    var s, step, t := run.systems[n], run.steps[n], run.systems[n + 1];
    forall k | k in t.pool.clients ensures CreatedFor(run, n + 1, t.pool.clients[k], OwnerOfKey(k)) {
      NextClients(s, step, k);
      if IsNew(s, step, t.pool.clients[k]) && OwnerOfKey(k) == Serves(s, step) {
        CreatedNow(run, n, t.pool.clients[k]);
      } else {
        CreatedForLater(run, n, t.pool.clients[k], OwnerOfKey(k));
      }
    }
    forall k | k in t.pool.pending ensures CreatedFor(run, n + 1, t.pool.pending[k], OwnerOfKey(k)) {
      NextPending(s, step, k);
      if IsNew(s, step, t.pool.pending[k]) && OwnerOfKey(k) == Serves(s, step) {
        CreatedNow(run, n, t.pool.pending[k]);
      } else {
        CreatedForLater(run, n, t.pool.pending[k], OwnerOfKey(k));
      }
    }
    forall i | i in t.calls && t.calls[i].AwaitingCreation?
      ensures CreatedFor(run, n + 1, t.calls[i].client, User(t.calls[i].userId))
    {
      NextCalls(s, step, i);
      if i in s.calls && s.calls[i] == t.calls[i] {
        CreatedForLater(run, n, t.calls[i].client, User(t.calls[i].userId));
      } else {
        CreatedNow(run, n, t.calls[i].client);
      }
    }
  }

  lemma {:induction false} OwnedAlways(run: Run, n: nat)
    requires ValidRun(run) && n < |run.systems|
    ensures Owned(run, n)
  {
    if n > 0 {
      OwnedAlways(run, n - 1);
      OwnedStep(run, n - 1);
    }
  }

  /** Whoever is served receives its own client: a client handed out in a step was created in a step, this or
      an earlier one, that served the same user, the default or the public owner. */
  lemma ClientIsOwn(run: Run, n: nat) returns (i: nat)
    requires ValidRun(run) && n < |run.steps| && Enabled(run.systems[n], run.steps[n])
    requires Next(run.systems[n], run.steps[n]).1.Some?
    ensures i <= n
    ensures CreatesFor(run, i, Next(run.systems[n], run.steps[n]).1.value, Serves(run.systems[n], run.steps[n]))
  {
    OwnedAlways(run, n);
    var s, step := run.systems[n], run.steps[n];
    var c := Next(s, step).1.value;
    var k := HandedFrom(s, step);
    if IsNew(s, step, c) {
      CreatedNow(run, n, c);
    } else {
      CreatedForLater(run, n, c, Serves(s, step));
    }
    i :| i < n + 1 && CreatesFor(run, i, c, Serves(s, step));
  }

  lemma {:induction false} CreatedGrows(run: Run, i: nat, j: nat)
    requires ValidRun(run) && i <= j < |run.systems|
    ensures run.systems[i].pool.created <= run.systems[j].pool.created
  {
    if i < j {
      CreatedGrows(run, i, j - 1);
      assert StepAt(run, j - 1);
    }
  }

  lemma CreatedOnce(run: Run, i: nat, j: nat, c: Client, owner: Owner, other: Owner)
    requires ValidRun(run) && CreatesFor(run, i, c, owner) && CreatesFor(run, j, c, other)
    ensures owner == other
  {
    if i < j { CreatedGrows(run, i + 1, j); }
    if j < i { CreatedGrows(run, j + 1, i); }
  }

  /** A suspended call serves the user that it was begun for. */
  lemma {:induction false} CallHasBegin(run: Run, n: nat, call: nat) returns (i: nat)
    requires ValidRun(run) && n < |run.systems| && call in run.systems[n].calls
    ensures i < n && run.steps[i].Begin? && run.steps[i].call == call
    ensures run.steps[i].userId == Some(run.systems[n].calls[call].userId)
  {
    assert StepAt(run, n - 1);
    if call in run.systems[n - 1].calls {
      i := CallHasBegin(run, n - 1, call);
    } else {
      i := n - 1;
    }
  }

  /** No sharing: two steps that hand out the same client serve the same user, or both the default or both
      the public owner. */
  lemma OwnersNeverShare(run: Run, m: nat, n: nat)
    requires ValidRun(run) && m < |run.steps| && n < |run.steps|
    requires Enabled(run.systems[m], run.steps[m]) && Enabled(run.systems[n], run.steps[n])
    requires Next(run.systems[m], run.steps[m]).1.Some?
    requires Next(run.systems[m], run.steps[m]).1 == Next(run.systems[n], run.steps[n]).1
    ensures Serves(run.systems[m], run.steps[m]) == Serves(run.systems[n], run.steps[n])
  {
    var i := ClientIsOwn(run, m);
    var j := ClientIsOwn(run, n);
    CreatedOnce(run, i, j, Next(run.systems[m], run.steps[m]).1.value,
                Serves(run.systems[m], run.steps[m]), Serves(run.systems[n], run.steps[n]));
  }

  // ---------------------------------------------------------------- prompt settlement

  /** No step happens more than the idle limit after an unfinished creation. */
  ghost predicate Prompt(s: System, step: Step) {
    forall i :: i in s.calls && s.calls[i].AwaitingCreation? ==> step.now - s.calls[i].since <= CLIENT_TTL_MS
  }

  ghost predicate HasCall(s: System, k: string) {
    exists i :: i in s.calls && s.calls[i].AwaitingCreation? && UserKey(s.calls[i].userId) == k
  }

  /** Every pending creation belongs to a suspended call and has not been evicted. */
  ghost predicate Settling(s: System, now: int) {
    && (forall k :: k in s.pool.lastUsed ==> s.pool.lastUsed[k] <= now)
    && (forall i :: i in s.calls && s.calls[i].AwaitingCreation? ==> Awaited(s, s.calls[i]))
    && (forall k :: k in s.pool.pending ==> HasCall(s, k))
  }

  ghost predicate Awaited(s: System, call: Call)
    requires call.AwaitingCreation?
  {
    var key := UserKey(call.userId);
    && key in s.pool.clients && s.pool.clients[key] == call.client
    && key in s.pool.lastUsed && call.since <= s.pool.lastUsed[key]
  }

  lemma AwaitedKept(s: System, step: Step, call: Call)
    requires Enabled(s, step) && call.AwaitingCreation? && Awaited(s, call)
    requires step.now - call.since <= CLIENT_TTL_MS
    requires s.pool.lastUsed[UserKey(call.userId)] <= step.now
    ensures Awaited(Next(s, step).0, call)
  {
    KeyKept(s, step, UserKey(call.userId));
  }

  lemma PendingIsPooled(s: System, now: int, k: string)
    requires Settling(s, now) && k in s.pool.pending
    ensures k in s.pool.clients
  {
    var i :| i in s.calls && s.calls[i].AwaitingCreation? && UserKey(s.calls[i].userId) == k;
    assert Awaited(s, s.calls[i]);
  }

  lemma PendingHasCall(s: System, step: Step, now: int, k: string)
    requires Enabled(s, step) && (forall j :: j in s.pool.pending ==> HasCall(s, j))
    requires k in Next(s, step).0.pool.pending
    ensures HasCall(Next(s, step).0, k)
  {
    var t := Next(s, step).0;
    if k in s.pool.pending {
      var i :| i in s.calls && s.calls[i].AwaitingCreation? && UserKey(s.calls[i].userId) == k;
      assert i in t.calls && t.calls[i] == s.calls[i];
    } else {
      assert step.Resume? && UserKey(t.calls[step.call].userId) == k;
    }
  }

  lemma CreatedIsAwaited(s: System, step: Step, i: nat)
    requires Inv(s) && Enabled(s, step)
    requires i in Next(s, step).0.calls && Next(s, step).0.calls[i].AwaitingCreation?
    ensures (i in s.calls && s.calls[i] == Next(s, step).0.calls[i])
            || Awaited(Next(s, step).0, Next(s, step).0.calls[i])
  {
  }

  lemma LastUsedPast(s: System, step: Step)
    requires Enabled(s, step) && forall k :: k in s.pool.lastUsed ==> s.pool.lastUsed[k] <= step.now
    ensures var t := Next(s, step).0;
            forall k :: k in t.pool.lastUsed ==> t.pool.lastUsed[k] <= step.now
  {
  }

  lemma SettlingStep(s: System, step: Step, now: int)
    requires Inv(s) && Enabled(s, step) && Prompt(s, step) && Settling(s, now) && now <= step.now
    ensures Settling(Next(s, step).0, step.now)
  {
    var t := Next(s, step).0;
    LastUsedPast(s, step);
    forall i | i in t.calls && t.calls[i].AwaitingCreation? ensures Awaited(t, t.calls[i]) {
      CreatedIsAwaited(s, step, i);
      if i in s.calls && s.calls[i] == t.calls[i] { AwaitedKept(s, step, s.calls[i]); }
    }
    forall k | k in t.pool.pending ensures HasCall(t, k) {
      PendingHasCall(s, step, now, k);
    }
  }

  ghost predicate PromptRun(run: Run) {
    ValidRun(run) && forall i :: 0 <= i < |run.steps| ==> Prompt(run.systems[i], run.steps[i])
  }

  lemma SettlingFirst(run: Run)
    requires PromptRun(run) && |run.systems| > 1
    ensures Settling(run.systems[0], run.steps[0].now)
  {
  }

  lemma SettlingNext(run: Run, n: nat, earlier: int)
    requires PromptRun(run) && n < |run.steps| && earlier <= run.steps[n].now
    requires Settling(run.systems[n], earlier)
    ensures Settling(run.systems[n + 1], run.steps[n].now)
  {
    InvAlways(run, n);
    assert StepAt(run, n) && Prompt(run.systems[n], run.steps[n]);
    SettlingStep(run.systems[n], run.steps[n], earlier);
  }

  lemma {:induction false} SettlingAlways(run: Run, n: nat)
    requires PromptRun(run) && n < |run.systems|
    ensures n > 0 ==> Settling(run.systems[n], run.steps[n - 1].now)
  {
    if n == 1 {
      SettlingFirst(run);
      SettlingNext(run, 0, run.steps[0].now);
    } else if n > 1 {
      SettlingAlways(run, n - 1);
      assert run.steps[n - 2].now <= run.steps[n - 1].now;
      SettlingNext(run, n - 1, run.steps[n - 2].now);
    }
  }

  /** If creations settle within the idle limit, every client a call ever receives is open. */
  lemma PromptRunHandsOutOpenClients(run: Run, n: nat)
    requires PromptRun(run) && n < |run.steps|
    requires Enabled(run.systems[n], run.steps[n]) && Next(run.systems[n], run.steps[n]).1.Some?
    ensures Next(run.systems[n], run.steps[n]).1.value !in run.systems[n + 1].pool.closed
  {
    var s, step := run.systems[n], run.steps[n];
    SettlingAlways(run, n);
    InvAlways(run, n);
    InvAlways(run, n + 1);
    assert StepAt(run, n);
    if step.Resume? {
      var key := UserKey(s.calls[step.call].userId);
      if key in s.pool.pending { PendingIsPooled(s, run.steps[n - 1].now, key); }
    } else if step.Settle? {
      assert Awaited(s, s.calls[step.call]);
    }
  }
}
