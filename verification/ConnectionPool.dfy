/** PostgresConnectionPool and its RAII wrapper as objects. The methods are the critical sections
    of `acquire` and `release`; PoolMonitor interleaves those sections between workers. */
module ConnectionPool {
  import opened Wrappers
  import opened PoolMonitor
  import opened Division

  function Rotate<T>(q: seq<T>): seq<T>
    requires q != []
  {
    q[1..] + [q[0]]
  }

  class PostgresConnectionPool {
    var pool: seq<Connection>

    constructor (connections: seq<Connection>)
      ensures pool == connections
    {
      pool := connections;
    }

    /** Opens `size` connections; `connects(i)` says whether the i-th attempt succeeds. One failed
        attempt and there is no pool at all. */
    static method Open(size: nat, connects: nat -> bool) returns (r: Option<PostgresConnectionPool>)
      ensures r.Some? <==> forall i: nat | i < size :: connects(i)
      ensures r.Some? ==> fresh(r.value) && |r.value.pool| == size
      ensures r.Some? ==> forall i, j | 0 <= i < j < size :: r.value.pool[i] != r.value.pool[j]
    {
      var p := new PostgresConnectionPool([]);
      for i := 0 to size
        invariant fresh(p) && |p.pool| == i && forall k: nat | k < i :: p.pool[k] == Connection(k)
        invariant forall k: nat | k < i :: connects(k)
      {
        if !connects(i) { return None; }
        p.pool := p.pool + [Connection(i)];
      }
      r := Some(p);
    }

    /** One evaluation of the wait predicate under the mutex: `None` means that the queue was
        empty and the caller goes to sleep. The effect is that of the monitor's `Test`. */
    method Acquire() returns (conn: Option<Connection>)
      modifies this`pool
      ensures conn.None? <==> old(pool) == []
      ensures conn.Some? ==> old(pool) == [conn.value] + pool
      ensures conn.None? ==> pool == old(pool)
      ensures forall m: Monitor, w: nat | m.free == old(pool) && Enabled(m, Test(w)) ::
                Step(m, Test(w)).free == pool &&
                Step(m, Test(w)).phase[w] == (if conn.Some? then Taken(conn.value) else Sleeping)
    {
      if pool == [] { return None; }
      conn := Some(pool[0]);
      pool := pool[1..];
    }

    /** Pushes under the mutex, the effect of the monitor's `Push`. */
    method Release(conn: Connection)
      modifies this`pool
      ensures pool == old(pool) + [conn]
      ensures forall m: Monitor, w: nat | m.free == old(pool) && Enabled(m, Push(w)) && m.phase[w].conn == conn ::
                Step(m, Push(w)).free == pool
    {
      pool := pool + [conn];
    }
  }

  /** The queue once the wait for a connection is over. */
  function Awaited(q: seq<Connection>, arrival: Option<Connection>): seq<Connection> {
    if q == [] && arrival.Some? then [arrival.value] else q
  }

  /** A borrowed connection: taken on construction, given back on destruction. */
  class PooledConnection {
    const pool: PostgresConnectionPool
    var conn: Option<Connection>

    /** Waits while the queue is empty; `arrival` is the connection that another thread gives back
        meanwhile. */
    constructor (pool: PostgresConnectionPool, arrival: Option<Connection>)
      requires pool.pool == [] ==> arrival.Some?
      modifies pool`pool
      ensures this.pool == pool && conn == Some(old(Awaited(pool.pool, arrival)[0]))
      ensures pool.pool == old(Awaited(pool.pool, arrival)[1..])
      ensures old(pool.pool) != [] ==> conn == Some(old(pool.pool[0])) && pool.pool == old(pool.pool[1..])
      ensures old(pool.pool) == [] ==> conn == arrival && pool.pool == []
    {
      var c := pool.Acquire();
      while c.None?
        invariant c.None? ==> pool.pool == old(pool.pool) == []
        invariant c.Some? ==> old(Awaited(pool.pool, arrival)) == [c.value] + pool.pool
        decreases c.None?
      {
        pool.Release(arrival.value);
        c := pool.Acquire();
      }
      this.pool := pool;
      conn := c;
    }

    method Destroy()
      requires conn.Some?
      modifies this`conn, pool`pool
      ensures conn.None? && pool.pool == old(pool.pool) + [old(conn).value]
    {
      pool.Release(conn.value);
      conn := None;
    }
  }

  // ----- first in, first out --------------------------------------------------------------

  /** The queue after `k` borrow-and-return rounds, one after the other. */
  ghost function Rotated<T>(q: seq<T>, k: nat): (r: seq<T>)
    requires q != []
    ensures |r| == |q|
  {
    if k == 0 then q else Rotate(Rotated(q, k - 1))
  }

  /** The connections that those rounds used, in order. */
  ghost function Used<T>(q: seq<T>, k: nat): seq<T>
    requires q != []
  {
    if k == 0 then [] else Used(q, k - 1) + [Rotated(q, k - 1)[0]]
  }

  /** `k` borrow-and-return rounds, one after the other, with the connections they used. */
  method BorrowRounds(pool: PostgresConnectionPool, k: nat) returns (used: seq<Connection>)
    requires pool.pool != []
    modifies pool
    ensures pool.pool == Rotated(old(pool.pool), k) && used == Used(old(pool.pool), k)
  {
    used := [];
    for i := 0 to k
      invariant pool.pool == Rotated(old(pool.pool), i) && used == Used(old(pool.pool), i)
    {
      var borrowed := new PooledConnection(pool, None);
      used := used + [borrowed.conn.value];
      borrowed.Destroy();
    }
  }

  /** `k` rounds rotate the queue by `k` modulo its size. */
  lemma {:induction false} RotationLaw<T>(q: seq<T>, k: nat)
    requires q != []
    ensures Rotated(q, k) == q[k % |q|..] + q[..k % |q|]
  {
    if k > 0 {
      RotationLaw(q, k - 1);
      DivModStep(k - 1, |q|);
      var r := (k - 1) % |q|;
      assert q[r..] == [q[r]] + q[r + 1..];
    }
  }

  /** Round `k` uses connection `k` modulo the size. */
  lemma {:induction false} UsedIsRoundRobin<T>(q: seq<T>, k: nat)
    requires q != []
    ensures Used(q, k + 1) == Used(q, k) + [q[k % |q|]]
  {
    RotationLaw(q, k);
  }

  /** How often `j` is among 0 % n, 1 % n, ..., (k - 1) % n. */
  ghost function Turns(k: nat, n: nat, j: nat): nat
    requires 0 < n
  {
    if k == 0 then 0 else Turns(k - 1, n, j) + (if j == (k - 1) % n then 1 else 0)
  }

  lemma {:induction false} TurnsAreEven(k: nat, n: nat, j: nat)
    requires j < n
    ensures Turns(k, n, j) == k / n + (if j < k % n then 1 else 0)
  {
    if k > 0 {
      TurnsAreEven(k - 1, n, j);
      DivModStep(k - 1, n);
    }
  }

  lemma CountUse<T>(s: seq<T>, q: seq<T>, r: nat, j: nat)
    requires r < |q| && j < |q| && forall i, i' | 0 <= i < i' < |q| :: q[i] != q[i']
    ensures multiset(s + [q[r]])[q[j]] == multiset(s)[q[j]] + (if j == r then 1 else 0)
  {
    assert multiset(s + [q[r]]) == multiset(s) + multiset{q[r]};
    assert q[j] == q[r] <==> j == r;
  }

  lemma OneMoreUse<T>(q: seq<T>, k: nat, j: nat)
    requires j < |q| && forall i, i' | 0 <= i < i' < |q| :: q[i] != q[i']
    ensures multiset(Used(q, k + 1))[q[j]] == multiset(Used(q, k))[q[j]] + (if j == k % |q| then 1 else 0)
  {
    UsedIsRoundRobin(q, k);
    CountUse(Used(q, k), q, k % |q|, j);
  }

  lemma {:induction false} UsesAreTurns<T>(q: seq<T>, k: nat, j: nat)
    requires j < |q| && forall i, i' | 0 <= i < i' < |q| :: q[i] != q[i']
    ensures multiset(Used(q, k))[q[j]] == Turns(k, |q|, j)
  {
    if k > 0 {
      UsesAreTurns(q, k - 1, j);
      OneMoreUse(q, k - 1, j);
    }
  }

  /** Every connection is used k / size times, plus once more if it is among the first k % size. */
  lemma {:induction false} FairUse<T>(q: seq<T>, k: nat, j: nat)
    requires j < |q| && forall i, i' | 0 <= i < i' < |q| :: q[i] != q[i']
    ensures multiset(Used(q, k))[q[j]] == k / |q| + (if j < k % |q| then 1 else 0)
  {
    UsesAreTurns(q, k, j);
    TurnsAreEven(k, |q|, j);
  }
}
