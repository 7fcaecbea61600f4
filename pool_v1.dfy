/**
 * `DatabaseManagerImpl`, the first pool: five connections made up front,
 * `synchronized` acquire and release, and a `Timer` whose task drops closed
 * idle connections and tops the idle list back up to five.
 */
module PoolV1 {
  import opened Wrappers
  import opened PoolCommon

  /**
   * The top-up loop of the health check: while fewer than five connections
   * are idle, append the next connection `createConnection` returns. The
   * flag is false when a creation threw, which ends the loop (and the timer).
   */
  function TopUp(pool: seq<ConnId>, supply: seq<Option<ConnId>>): (r: (seq<ConnId>, bool))
    requires |pool| + |supply| >= INITIAL_POOL_SIZE
    ensures |pool| <= |r.0| <= |pool| + |supply| && r.0[..|pool|] == pool
    ensures forall i :: |pool| <= i < |r.0| ==> supply[i - |pool|] == Some(r.0[i])
    ensures r.1 ==> |r.0| == if |pool| < INITIAL_POOL_SIZE then INITIAL_POOL_SIZE else |pool|
    ensures !r.1 ==> |r.0| < INITIAL_POOL_SIZE && |r.0| < |pool| + |supply| && supply[|r.0| - |pool|] == None
    decreases INITIAL_POOL_SIZE - |pool|
  {
    if |pool| >= INITIAL_POOL_SIZE then (pool, true)
    else
      match supply[0]
      case None => (pool, false)
      case Some(c) =>
        var r := TopUp(pool + [c], supply[1..]);
        assert r.0[..|pool|] == (pool + [c])[..|pool|];
        r
  }

  class DatabaseManager {
    var connectionPool: seq<ConnId>       // idle connections; the last one is handed out first
    var usedConnections: seq<ConnId>      // leased connections
    var healthCheckRunning: bool          // the health-check Timer is still alive
    ghost var closed: set<ConnId>         // connections this pool has closed itself

    /** The constructor with the five connections its pre-warm loop creates. */
    constructor (initial: seq<ConnId>)
      requires |initial| == INITIAL_POOL_SIZE
      ensures connectionPool == initial && usedConnections == []
      ensures healthCheckRunning && closed == {}
    {
      var pool: seq<ConnId> := [];
      for i := 0 to INITIAL_POOL_SIZE
        invariant pool == initial[..i]
      {
        pool := pool + [initial[i]];
      }
      connectionPool := pool;
      usedConnections := [];
      healthCheckRunning := true;
      closed := {};
    }

    /**
     * `getConnection()`. The capacity check is made only when no connection
     * is idle; an idle connection is handed out without any check.
     */
    method GetConnection(made: Option<ConnId>) returns (r: Result<ConnId, PoolError>)
      modifies this
      ensures closed == old(closed) && healthCheckRunning == old(healthCheckRunning)
      ensures old(connectionPool) == [] && |old(usedConnections)| >= MAX_POOL_SIZE ==>
        r == Err(PoolExhausted) && unchanged(this)
      ensures old(connectionPool) == [] && |old(usedConnections)| < MAX_POOL_SIZE ==>
        if made.None? then r == Err(FactoryFailure) && unchanged(this)
        else r == Ok(made.value) && connectionPool == [] && usedConnections == old(usedConnections) + [made.value]
      ensures old(connectionPool) != [] ==>
        var n := |old(connectionPool)| - 1;
        && r == Ok(old(connectionPool)[n])
        && connectionPool == old(connectionPool)[..n]
        && usedConnections == old(usedConnections) + [r.value]
    {
      if connectionPool == [] {
        if |usedConnections| < MAX_POOL_SIZE {
          if made.None? {
            return Err(FactoryFailure);
          }
          connectionPool := connectionPool + [made.value];
        } else {
          return Err(PoolExhausted);
        }
      }
      var n := |connectionPool| - 1;
      var connection := connectionPool[n];
      connectionPool := connectionPool[..n];
      usedConnections := usedConnections + [connection];
      r := Ok(connection);
    }

    /** `releaseConnection(connection)`: appended to idle whether or not it was leased. */
    method ReleaseConnection(connection: ConnId)
      modifies this
      ensures connectionPool == old(connectionPool) + [connection]
      ensures usedConnections == RemoveFirst(old(usedConnections), connection)
      ensures closed == old(closed) && healthCheckRunning == old(healthCheckRunning)
    {
      connectionPool := connectionPool + [connection];
      usedConnections := RemoveFirst(usedConnections, connection);
    }

    /**
     * One run of the timer task: drop the `broken` idle connections, then top
     * the idle list up to five from `supply`, the successive outcomes of
     * `createConnection`. A creation that throws kills the timer.
     */
    method HealthCheck(broken: set<ConnId>, supply: seq<Option<ConnId>>)
      requires |supply| >= INITIAL_POOL_SIZE
      modifies this
      ensures usedConnections == old(usedConnections) && closed == old(closed)
      ensures !old(healthCheckRunning) ==> unchanged(this)
      ensures old(healthCheckRunning) ==>
        (connectionPool, healthCheckRunning) == TopUp(Without(old(connectionPool), broken), supply)
      ensures old(healthCheckRunning) && healthCheckRunning ==> |connectionPool| >= INITIAL_POOL_SIZE
    {
      if !healthCheckRunning {
        return;
      }
      var pool := Without(connectionPool, broken);
      var rest := supply;
      ghost var goal := TopUp(pool, supply);
      while |pool| < INITIAL_POOL_SIZE
        invariant |pool| + |rest| >= INITIAL_POOL_SIZE
        invariant TopUp(pool, rest) == goal
        decreases INITIAL_POOL_SIZE - |pool|
      {
        if rest[0].None? {
          connectionPool, healthCheckRunning := pool, false;
          return;
        }
        pool := pool + [rest[0].value];
        rest := rest[1..];
      }
      connectionPool := pool;
    }

    /** `getPoolSize()`: the number of idle connections only. */
    method GetPoolSize() returns (size: nat)
      ensures size == |connectionPool|
    {
      size := |connectionPool|;
    }

    /** `shutdown()`: close and forget every connection; the timer is left running. */
    method Shutdown()
      modifies this
      ensures connectionPool == [] && usedConnections == []
      ensures healthCheckRunning == old(healthCheckRunning)
      ensures closed == old(closed) + (set c | c in old(usedConnections)) + (set c | c in old(connectionPool))
    {
      closed := closed + (set c | c in usedConnections) + (set c | c in connectionPool);
      connectionPool := [];
      usedConnections := [];
    }
  }

  /** Releasing a connection twice leases it to two callers at once afterwards. */
  method DoubleReleaseLeasesTwice() returns (first: Result<ConnId, PoolError>, second: Result<ConnId, PoolError>)
    ensures first == Ok(5) && second == Ok(5)
  {
    var pool := new DatabaseManager([1, 2, 3, 4, 5]);
    var lease := pool.GetConnection(None);
    pool.ReleaseConnection(5);
    pool.ReleaseConnection(5);
    assert pool.connectionPool == [1, 2, 3, 4, 5, 5];
    first := pool.GetConnection(None);
    second := pool.GetConnection(None);
  }

  /**
   * The top-up ignores leased connections and a non-empty idle list skips
   * the capacity check: idle plus leased grows past `MAX_POOL_SIZE`.
   */
  method TopUpOvershootsCapacity() returns (idle: nat, used: nat)
    ensures idle + used > MAX_POOL_SIZE && used > MAX_POOL_SIZE
  {
    var pool := new DatabaseManager([1, 2, 3, 4, 5]);
    var k := 0;
    while k < 2
      invariant 0 <= k <= 2
      invariant pool.healthCheckRunning
      invariant |pool.connectionPool| == INITIAL_POOL_SIZE && |pool.usedConnections| == 5 * k
    {
      for i := 0 to INITIAL_POOL_SIZE
        invariant |pool.connectionPool| == INITIAL_POOL_SIZE - i && |pool.usedConnections| == 5 * k + i
        invariant pool.healthCheckRunning
      {
        var lease := pool.GetConnection(None);
      }
      var next := 10 * (k + 1);
      pool.HealthCheck({}, [Some(next), Some(next + 1), Some(next + 2), Some(next + 3), Some(next + 4)]);
      k := k + 1;
    }
    var lease := pool.GetConnection(None);
    idle, used := |pool.connectionPool|, |pool.usedConnections|;
  }

  /** `shutdown` leaves the timer running, so the next tick refills the emptied pool. */
  method SweepRefillsAfterShutdown() returns (size: nat)
    ensures size == INITIAL_POOL_SIZE
  {
    var pool := new DatabaseManager([1, 2, 3, 4, 5]);
    pool.Shutdown();
    pool.HealthCheck({}, [Some(6), Some(7), Some(8), Some(9), Some(10)]);
    size := pool.GetPoolSize();
  }
}
