/**
 * `DatabaseManagerImplv4`: no pre-warm, a guarded release, last-used
 * timestamps and an idle-timeout sweep. Every public method runs under the
 * pool's lock, so each is one atomic step here.
 */
module PoolV4 {
  import opened Wrappers
  import opened PoolCommon

  /** Idle connections older than this (in milliseconds) are closed by the sweep. */
  const MAX_IDLE_TIME_MS: int := 300000

  /** An idle connection whose last use lies more than `MAX_IDLE_TIME_MS` before `now`. */
  predicate TimedOut(c: ConnId, lastUsed: map<ConnId, int>, now: int)
  {
    c in lastUsed && now - lastUsed[c] > MAX_IDLE_TIME_MS
  }

  /** The idle connections one sweep drops: broken ones (closed, or the probe threw) and timed-out ones. */
  function Evicted(idle: seq<ConnId>, broken: set<ConnId>, lastUsed: map<ConnId, int>, now: int): (gone: set<ConnId>)
    ensures forall c :: c in gone <==> c in idle && (c in broken || TimedOut(c, lastUsed, now))
  {
    set c | c in idle && (c in broken || TimedOut(c, lastUsed, now))
  }

  class DatabaseManager {
    var connectionPool: seq<ConnId>              // idle connections; the last one is handed out first
    var usedConnections: seq<ConnId>             // leased connections
    var lastUsedTimestamps: map<ConnId, int>
    var healthCheckRunning: bool                 // the scheduled executor still runs the sweep
    ghost var closed: set<ConnId>                // connections this pool has closed itself

    /**
     * The pool invariant: idle and leased are disjoint and duplicate-free,
     * together hold at most `MAX_POOL_SIZE` connections, every one of them
     * has a timestamp, and none of them was closed by the pool.
     */
    ghost predicate Valid()
      reads this
    {
      && NoDuplicates(connectionPool)
      && NoDuplicates(usedConnections)
      && (forall c :: c in connectionPool ==> c !in usedConnections)
      && |connectionPool| + |usedConnections| <= MAX_POOL_SIZE
      && (forall c :: c in connectionPool ==> c in lastUsedTimestamps)
      && (forall c :: c in usedConnections ==> c in lastUsedTimestamps)
      && (forall c :: c in closed ==> c !in connectionPool && c !in usedConnections)
    }

    /** What `createConnection` may return: a new object, so none the pool holds or has closed. */
    ghost predicate Fresh(c: ConnId)
      reads this
    {
      c !in connectionPool && c !in usedConnections && c !in closed
    }

    constructor ()
      ensures Valid()
      ensures connectionPool == [] && usedConnections == [] && lastUsedTimestamps == map[]
      ensures healthCheckRunning && closed == {}
    {
      connectionPool := [];
      usedConnections := [];
      lastUsedTimestamps := map[];
      healthCheckRunning := true;
      closed := {};
    }

    /**
     * `getConnection()` at time `now`. `broken` holds the connections whose
     * `isClosed()` answers true or throws; `made` is what `createConnection`
     * returns if it is called (`None`: it throws).
     */
    method GetConnection(broken: set<ConnId>, made: Option<ConnId>, now: int) returns (r: Result<ConnId, PoolError>)
      requires Valid()
      requires made.Some? ==> Fresh(made.value)
      modifies this
      ensures Valid()
      ensures closed == old(closed) && healthCheckRunning == old(healthCheckRunning)
      ensures r.Ok? ==> r.value in usedConnections && r.value !in connectionPool
      // idle empty and ten leased: refuse, change nothing
      ensures old(connectionPool) == [] && |old(usedConnections)| >= MAX_POOL_SIZE ==>
        r == Err(PoolExhausted) && unchanged(this)
      // idle empty, room left: lease a new connection
      ensures old(connectionPool) == [] && |old(usedConnections)| < MAX_POOL_SIZE ==>
        if made.None? then r == Err(FactoryFailure) && unchanged(this)
        else
          && r == Ok(made.value)
          && connectionPool == []
          && usedConnections == old(usedConnections) + [made.value]
          && lastUsedTimestamps == old(lastUsedTimestamps)[made.value := now]
      // idle non-empty: take the last one, replacing it when it is broken
      ensures old(connectionPool) != [] ==>
        var n := |old(connectionPool)| - 1;
        var taken := old(connectionPool)[n];
        && connectionPool == old(connectionPool)[..n]
        && r == (if taken !in broken then Ok(taken) else if made.Some? then Ok(made.value) else Err(FactoryFailure))
        && (r.Ok? ==> usedConnections == old(usedConnections) + [r.value]
                      && lastUsedTimestamps == old(lastUsedTimestamps)[r.value := now])
        && (r.Err? ==> usedConnections == old(usedConnections) && lastUsedTimestamps == old(lastUsedTimestamps))
    {
      if connectionPool == [] {
        if |usedConnections| < MAX_POOL_SIZE {
          if made.None? {
            return Err(FactoryFailure);
          }
          var newConnection := made.value;
          usedConnections := usedConnections + [newConnection];
          lastUsedTimestamps := lastUsedTimestamps[newConnection := now];
          return Ok(newConnection);
        } else {
          return Err(PoolExhausted);
        }
      }

      var n := |connectionPool| - 1;
      var connection := connectionPool[n];
      connectionPool := connectionPool[..n];
      assert forall c :: c in connectionPool ==> c in old(connectionPool)[..n];
      if connection in broken {
        // the broken connection is dropped without being closed; its timestamp stays behind
        if made.None? {
          return Err(FactoryFailure);
        }
        connection := made.value;
      }
      assert connection !in usedConnections;
      usedConnections := usedConnections + [connection];
      lastUsedTimestamps := lastUsedTimestamps[connection := now];
      r := Ok(connection);
    }

    /**
     * `releaseConnection(connection)`, with `None` for `null`: a connection
     * goes back to idle only if it was leased; anything else is ignored.
     */
    method ReleaseConnection(connection: Option<ConnId>, now: int)
      requires Valid()
      modifies this
      ensures Valid()
      ensures closed == old(closed) && healthCheckRunning == old(healthCheckRunning)
      ensures if connection.Some? && connection.value in old(usedConnections) then
          && usedConnections == RemoveFirst(old(usedConnections), connection.value)
          && connection.value !in usedConnections
          && connectionPool == old(connectionPool) + [connection.value]
          && lastUsedTimestamps == old(lastUsedTimestamps)[connection.value := now]
        else unchanged(this)
    {
      if connection.Some? && connection.value in usedConnections {
        var c := connection.value;
        RemoveFirstNoDuplicates(usedConnections, c);
        usedConnections := RemoveFirst(usedConnections, c);
        connectionPool := connectionPool + [c];
        lastUsedTimestamps := lastUsedTimestamps[c := now];
      }
    }

    /**
     * One run of the scheduled health check at time `now`: idle connections
     * that are broken or timed out leave the pool and lose their timestamp;
     * timed-out ones are closed first. Leased connections are not touched.
     */
    method HealthCheck(broken: set<ConnId>, now: int)
      requires Valid()
      modifies this
      ensures Valid()
      ensures usedConnections == old(usedConnections) && healthCheckRunning == old(healthCheckRunning)
      ensures !old(healthCheckRunning) ==> unchanged(this)
      ensures old(healthCheckRunning) ==>
        var gone := Evicted(old(connectionPool), broken, old(lastUsedTimestamps), now);
        && connectionPool == Without(old(connectionPool), gone)
        && lastUsedTimestamps == old(lastUsedTimestamps) - gone
        && closed == old(closed) + (set c | c in gone && c !in broken)
      ensures old(healthCheckRunning) ==>
        forall c :: c in connectionPool ==> c !in broken && !TimedOut(c, lastUsedTimestamps, now)
    {
      if !healthCheckRunning {
        return;
      }
      var gone := Evicted(connectionPool, broken, lastUsedTimestamps, now);
      var timedOut := set c | c in gone && c !in broken;
      closed := closed + timedOut;
      lastUsedTimestamps := lastUsedTimestamps - gone;
      connectionPool := Without(connectionPool, gone);
    }

    /** `getPoolSize()`: the number of idle connections only. */
    method GetPoolSize() returns (size: nat)
      ensures size == |connectionPool|
    {
      size := |connectionPool|;
    }

    /** `shutdown()`: stop the sweep, close every idle and leased connection, forget them all. */
    method Shutdown()
      requires Valid()
      modifies this
      ensures Valid()
      ensures connectionPool == [] && usedConnections == [] && lastUsedTimestamps == map[]
      ensures !healthCheckRunning
      ensures closed == old(closed) + (set c | c in old(usedConnections)) + (set c | c in old(connectionPool))
    {
      healthCheckRunning := false;
      closed := closed + (set c | c in usedConnections) + (set c | c in connectionPool);
      connectionPool := [];
      usedConnections := [];
      lastUsedTimestamps := map[];
    }
  }

  /** Releasing the same connection twice puts it back in the idle list once. */
  method DoubleReleaseIsIgnored() returns (idle: seq<ConnId>, used: seq<ConnId>)
    ensures idle == [1] && used == []
  {
    var pool := new DatabaseManager();
    var r := pool.GetConnection({}, Some(1), 0);
    pool.ReleaseConnection(Some(1), 10);
    pool.ReleaseConnection(Some(1), 20);
    idle, used := pool.connectionPool, pool.usedConnections;
  }

  /** With ten connections leased and none idle, the eleventh request is refused. */
  method EleventhLeaseIsRefused() returns (r: Result<ConnId, PoolError>)
    ensures r == Err(PoolExhausted)
  {
    var pool := new DatabaseManager();
    var i := 0;
    while i < MAX_POOL_SIZE
      invariant 0 <= i <= MAX_POOL_SIZE
      invariant pool.Valid() && pool.closed == {}
      invariant pool.connectionPool == [] && |pool.usedConnections| == i
      invariant forall c :: c in pool.usedConnections ==> c < i
    {
      var lease := pool.GetConnection({}, Some(i), i);
      i := i + 1;
    }
    r := pool.GetConnection({}, Some(MAX_POOL_SIZE), MAX_POOL_SIZE);
  }
}
