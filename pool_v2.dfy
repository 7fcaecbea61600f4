/**
 * `DatabaseManagerImplv2`: the first pool without the health check, its two
 * lists wrapped in `Collections.synchronizedList`.
 */
module PoolV2 {
  import opened Wrappers
  import opened PoolCommon

  class DatabaseManager {
    var connectionPool: seq<ConnId>       // idle connections; the last one is handed out first
    var usedConnections: seq<ConnId>      // leased connections
    ghost var closed: set<ConnId>         // connections this pool has closed itself

    /** The constructor with the five connections its pre-warm loop creates. */
    constructor (initial: seq<ConnId>)
      requires |initial| == INITIAL_POOL_SIZE
      ensures connectionPool == initial && usedConnections == [] && closed == {}
    {
      var pool: seq<ConnId> := [];
      for i := 0 to INITIAL_POOL_SIZE
        invariant pool == initial[..i]
      {
        pool := pool + [initial[i]];
      }
      connectionPool := pool;
      usedConnections := [];
      closed := {};
    }

    /**
     * `getConnection()`: create one connection when none is idle and fewer
     * than ten are leased, then hand out the last idle one.
     */
    method GetConnection(made: Option<ConnId>) returns (r: Result<ConnId, PoolError>)
      modifies this
      ensures closed == old(closed)
      ensures old(connectionPool) == [] && |old(usedConnections)| >= MAX_POOL_SIZE ==>
        r == Err(PoolExhausted) && unchanged(this)
      ensures old(connectionPool) == [] && |old(usedConnections)| < MAX_POOL_SIZE ==>
        if made.None? then r == Err(FactoryFailure) && unchanged(this)
        else r == Ok(made.value) && connectionPool == [] && usedConnections == old(usedConnections) + [made.value]
      ensures old(connectionPool) != [] ==>
        var n := |old(connectionPool)| - 1;
        && r == Ok(old(connectionPool)[n])
        && connectionPool == old(connectionPool)[..n]
        && usedConnections == old(usedConnections) + [r.value]
    {
      if connectionPool == [] {
        if |usedConnections| < MAX_POOL_SIZE {
          if made.None? {
            return Err(FactoryFailure);
          }
          connectionPool := connectionPool + [made.value];
        } else {
          return Err(PoolExhausted);
        }
      }
      var n := |connectionPool| - 1;
      var connection := connectionPool[n];
      connectionPool := connectionPool[..n];
      usedConnections := usedConnections + [connection];
      r := Ok(connection);
    }

    /** `releaseConnection(connection)`: appended to idle with no check that it was leased. */
    method ReleaseConnection(connection: ConnId)
      modifies this
      ensures connectionPool == old(connectionPool) + [connection]
      ensures usedConnections == RemoveFirst(old(usedConnections), connection)
      ensures closed == old(closed)
    {
      connectionPool := connectionPool + [connection];
      usedConnections := RemoveFirst(usedConnections, connection);
    }

    /** `getPoolSize()`: the number of idle connections only. */
    method GetPoolSize() returns (size: nat)
      ensures size == |connectionPool|
    {
      size := |connectionPool|;
    }

    /** `shutdown()`: close every leased and idle connection and empty both lists. */
    method Shutdown()
      modifies this
      ensures connectionPool == [] && usedConnections == []
      ensures closed == old(closed) + (set c | c in old(usedConnections)) + (set c | c in old(connectionPool))
    {
      closed := closed + (set c | c in usedConnections) + (set c | c in connectionPool);
      connectionPool := [];
      usedConnections := [];
    }
  }

  /** Releasing one connection again and again grows the idle list past `MAX_POOL_SIZE`, all copies of it. */
  method RepeatedReleaseOvershootsCapacity() returns (idle: seq<ConnId>)
    ensures |idle| > MAX_POOL_SIZE
    ensures forall j :: 4 <= j < |idle| ==> idle[j] == 5
  {
    var pool := new DatabaseManager([1, 2, 3, 4, 5]);
    var lease := pool.GetConnection(None);
    for i := 0 to MAX_POOL_SIZE
      invariant |pool.connectionPool| == 4 + i
      invariant forall j :: 4 <= j < |pool.connectionPool| ==> pool.connectionPool[j] == 5
    {
      pool.ReleaseConnection(5);
    }
    idle := pool.connectionPool;
  }
}
