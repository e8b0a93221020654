/**
 * The parts of the redis client package that the pool relies on, reduced to
 * what the pool can observe of them. Dialing and closing are foreign calls:
 * a dial is an outcome handed in by the caller, a close is recorded by the
 * pool in a ghost set.
 */
module Redis {

  /** A `*redis.Client` handle, known only by its identity. */
  type Client = nat

  /**
   * An error the client package can report. `CmdError` is the
   * `*redis.CmdError` type: the command failed but the connection is sound.
   * `ConnError` stands for every other error value.
   */
  datatype Error = CmdError(msg: string) | ConnError(msg: string)

  /** The outcome of one `redis.Dial(network, addr)` call. */
  datatype DialResult = Dialed(conn: Client) | DialFailed(reason: string)

  /**
   * The error value a failed dial returns. Dialing fails on the network,
   * never on a command, so this is a connection-level error.
   */
  function DialError(reason: string): Error
  {
    ConnError(reason)
  }
}
