/**
 * `DatabaseManagerImplv3`: a `LinkedBlockingQueue` of capacity ten holds the
 * idle connections; leased ones are not tracked at all.
 */
module PoolV3 {
  import opened Wrappers
  import opened PoolCommon

  class DatabaseManager {
    var connectionPool: seq<ConnId>       // the queue, head first
    ghost var closed: set<ConnId>         // connections this pool has closed itself

    /** The queue never holds more than its capacity. */
    ghost predicate Valid()
      reads this
    {
      |connectionPool| <= MAX_POOL_SIZE
    }

    /** The constructor with the five connections its pre-warm loop creates. */
    constructor (initial: seq<ConnId>)
      requires |initial| == INITIAL_POOL_SIZE
      ensures Valid()
      ensures connectionPool == initial && closed == {}
    {
      var pool: seq<ConnId> := [];
      for i := 0 to INITIAL_POOL_SIZE
        invariant pool == initial[..i]
      {
        pool := pool + [initial[i]];
      }
      connectionPool := pool;
      closed := {};
    }

    /**
     * `getConnection()`, i.e. `take()`: the head of the queue. On an empty
     * queue `take` waits for a release; `None` stands for that wait, and
     * nothing changes. No connection is ever created here.
     */
    method GetConnection() returns (r: Option<ConnId>)
      requires Valid()
      modifies this
      ensures Valid()
      ensures closed == old(closed)
      ensures old(connectionPool) == [] ==> r == None && connectionPool == []
      ensures old(connectionPool) != [] ==>
        r == Some(old(connectionPool)[0]) && connectionPool == old(connectionPool)[1..]
    {
      if connectionPool == [] {
        return None;
      }
      r := Some(connectionPool[0]);
      connectionPool := connectionPool[1..];
    }

    /** `releaseConnection(connection)`: queued at the tail if there is room, closed otherwise. */
    method ReleaseConnection(connection: ConnId)
      requires Valid()
      modifies this
      ensures Valid()
      ensures |old(connectionPool)| < MAX_POOL_SIZE ==>
        connectionPool == old(connectionPool) + [connection] && closed == old(closed)
      ensures |old(connectionPool)| >= MAX_POOL_SIZE ==>
        connectionPool == old(connectionPool) && closed == old(closed) + {connection}
    {
      if |connectionPool| < MAX_POOL_SIZE {
        connectionPool := connectionPool + [connection];
      } else {
        closed := closed + {connection};
      }
    }

    /** `getPoolSize()`: the queue length. */
    method GetPoolSize() returns (size: nat)
      ensures size == |connectionPool|
    {
      size := |connectionPool|;
    }

    /** `shutdown()`: close the queued connections and empty the queue; leased ones stay open. */
    method Shutdown()
      requires Valid()
      modifies this
      ensures Valid()
      ensures connectionPool == []
      ensures closed == old(closed) + (set c | c in old(connectionPool))
    {
      closed := closed + (set c | c in connectionPool);
      connectionPool := [];
    }
  }

  /** Connections come out in the order they went in: the pre-warmed ones first, then released ones. */
  method QueueIsFirstInFirstOut() returns (first: Option<ConnId>, second: Option<ConnId>)
    ensures first == Some(1) && second == Some(2)
  {
    var pool := new DatabaseManager([1, 2, 3, 4, 5]);
    first := pool.GetConnection();
    pool.ReleaseConnection(1);
    second := pool.GetConnection();
  }

  /** A release into a full queue closes the connection instead of queueing it. */
  method ReleaseBeyondCapacityCloses() returns (queue: seq<ConnId>)
    ensures queue == [1, 2, 3, 4, 5, 10, 11, 12, 13, 14]
  {
    var pool := new DatabaseManager([1, 2, 3, 4, 5]);
    for i := 0 to 6
      invariant pool.Valid()
      invariant pool.connectionPool == [1, 2, 3, 4, 5] + seq(if i < 5 then i else 5, j => 10 + j)
      invariant i == 6 ==> 15 in pool.closed
    {
      pool.ReleaseConnection(10 + i);
    }
    assert 15 in pool.closed;
    queue := pool.connectionPool;
  }
}
