/**
 * The `Pool` type of extra/pool/pool.go with its channel read as a bounded
 * FIFO buffer that the methods update in place. Each method is proved to
 * leave exactly the state the matching function of PoolSpec computes.
 */
module Pool {
  import opened Wrappers
  import opened Redis
  import PoolSpec

  class Pool {
    const network: string
    const addr: string
    /** cap(p.Pool), fixed when the channel is made */
    const capacity: nat
    /** the values buffered in p.Pool, oldest first */
    var idle: seq<Client>
    /** every client this pool has called Close() on */
    ghost var closed: set<Client>

    ghost predicate Valid()
      reads this
    {
      |idle| <= capacity
    }

    ghost function State(): PoolSpec.PoolState
      reads this
    {
      PoolSpec.PoolState(network, addr, capacity, idle, closed)
    }

    /** `&Pool{Network: network, Addr: addr, Pool: make(chan *redis.Client, capacity)}` */
    constructor (network: string, addr: string, capacity: nat)
      ensures Valid()
      ensures State() == PoolSpec.PoolState(network, addr, capacity, [], {})
    {
      this.network := network;
      this.addr := addr;
      this.capacity := capacity;
      idle := [];
      closed := {};
    }

    /** `select { case p.Pool <- c: ... default: ... }`: send unless the channel is full. */
    method TrySend(c: Client) returns (sent: bool)
      requires Valid()
      modifies this`idle
      ensures Valid()
      ensures sent <==> |old(idle)| < capacity
      ensures idle == if sent then old(idle) + [c] else old(idle)
    {
      sent := |idle| < capacity;
      if sent {
        idle := idle + [c];
      }
    }

    /** `select { case c := <-p.Pool: ... default: ... }`: receive unless the channel is empty. */
    method TryReceive() returns (c: Option<Client>)
      requires Valid()
      modifies this`idle
      ensures Valid()
      ensures c.None? <==> old(idle) == []
      ensures c.Some? ==> c.value == old(idle)[0] && idle == old(idle)[1..]
      ensures c.None? ==> idle == old(idle)
    {
      if idle == [] {
        c := None;
      } else {
        c := Some(idle[0]);
        idle := idle[1..];
      }
    }

    /** Put: buffer `c`, or close it when the buffer is full. */
    method Put(c: Client)
      requires Valid()
      modifies this
      ensures Valid()
      ensures |old(idle)| < capacity ==> idle == old(idle) + [c] && closed == old(closed)
      ensures |old(idle)| >= capacity ==> idle == old(idle) && closed == old(closed) + {c}
      ensures State() == PoolSpec.Put(old(State()), c)
    {
      var sent := TrySend(c);
      if !sent {
        closed := closed + {c};  // conn.Close(); its error is ignored
      }
    }

    /** CarefullyPut: Put `c` back unless `*potentialErr` is an error other than a command error. */
    method CarefullyPut(c: Client, potentialErr: PoolSpec.ErrRef)
      requires Valid()
      modifies this
      ensures Valid()
      ensures State() == PoolSpec.CarefullyPut(old(State()), c, potentialErr)
    {
      if potentialErr.Ref? && potentialErr.err.Some? {
        if !potentialErr.err.value.CmdError? {
          return;
        }
      }
      Put(c);
    }

    /** Get: a buffered client, or else the outcome of one dial. */
    method Get(dial: DialResult) returns (conn: Option<Client>, err: Option<Error>, ghost dialed: bool)
      requires Valid()
      modifies this
      ensures Valid()
      ensures old(idle) != [] ==>
                conn == Some(old(idle)[0]) && err == None && !dialed
                && idle == old(idle)[1..] && closed == old(closed)
      ensures old(idle) == [] ==> dialed
      ensures PoolSpec.Get(old(State()), dial) == PoolSpec.GetResult(State(), conn, err, dialed)
    {
      conn := TryReceive();
      if conn.Some? {
        err, dialed := None, false;
        return;
      }
      dialed := true;
      match dial {
        case Dialed(c) =>
          conn, err := Some(c), None;
          CarefullyPut(c, PoolSpec.Ref(err));
        case DialFailed(reason) =>
          // CarefullyPut(nil, &err) returns before Put: a dial error is not a command error
          conn, err := None, Some(DialError(reason));
      }
    }

    /** Empty: receive and close buffered clients until the buffer is empty. */
    method Empty()
      requires Valid()
      modifies this
      ensures Valid()
      ensures idle == [] && closed == old(closed) + PoolSpec.Elems(old(idle))
      ensures State() == PoolSpec.Empty(old(State()))
    {
      while true
        invariant Valid()
        invariant PoolSpec.Empty(State()) == PoolSpec.Empty(old(State()))
        decreases |idle|
      {
        var conn := TryReceive();
        if conn.None? {
          return;
        }
        closed := closed + {conn.value};  // conn.Close(); its error is ignored
      }
    }
  }

  /**
   * NewPool: dial `size` clients (the i-th dial has outcome `dial(i)`),
   * returning the first dial error, or a pool of capacity `size` holding
   * all of them in the order they were dialed.
   */
  method NewPool(network: string, addr: string, size: nat, dial: nat -> DialResult)
    returns (p: Pool?, err: Option<Error>)
    ensures p == null <==> err.Some?
    ensures match PoolSpec.NewPool(network, addr, size, dial)
            case Built(st) => p != null && fresh(p) && p.Valid() && p.State() == st
            case Failed(e, _) => err == Some(e)
  {
    var pool: seq<Client> := [];
    var i := 0;
    while i < size
      invariant 0 <= i <= size
      invariant PoolSpec.DialUpTo(dial, i) == (pool, None)
    {
      match dial(i) {
        case DialFailed(reason) =>
          PoolSpec.DialUpToStaysFailed(dial, i + 1, size);
          return null, Some(DialError(reason));
        case Dialed(c) =>
          pool := pool + [c];
      }
      i := i + 1;
    }
    p := new Pool(network, addr, |pool|);
    i := 0;
    while i < |pool|
      invariant 0 <= i <= |pool|
      invariant p.Valid() && p.State() == PoolSpec.PoolState(network, addr, |pool|, pool[..i], {})
    {
      p.idle := p.idle + [pool[i]];  // p.Pool <- pool[i]: there is room for every one
      i := i + 1;
    }
    err := None;
  }

  /** NewOrEmptyPool: NewPool, or on its error an empty pool of the same size. */
  method NewOrEmptyPool(network: string, addr: string, size: nat, dial: nat -> DialResult)
    returns (p: Pool)
    ensures fresh(p) && p.Valid()
    ensures p.State() == PoolSpec.NewOrEmptyPool(network, addr, size, dial)
  {
    var pool, err := NewPool(network, addr, size, dial);
    if err.Some? {
      pool := new Pool(network, addr, size);
    }
    p := pool;
  }
}
