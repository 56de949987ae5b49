/** A stream socket: a byte sequence that moves an arbitrary number of bytes per call. */
module Sockets {
  import opened Wire

  const EIO := 5
  const ENOMEM := 12
  const EINVAL := 22
  const ENOTCONN := 107

  class Socket {
    /** What the peer sent before it closes, not read yet. */
    var incoming: seq<byte>
    /** What was sent to the peer. */
    var outgoing: seq<byte>
    /** Whether a call has failed. */
    var failed: bool
    /** A connection on which no call ever fails. */
    const reliable: bool

    constructor (incoming: seq<byte>, reliable: bool)
      ensures this.incoming == incoming && outgoing == [] && !failed && this.reliable == reliable
    {
      this.incoming, outgoing, failed := incoming, [], false;
      this.reliable := reliable;
    }

    /** recv: an error, 0 at the end of the stream, or between 1 and `n` bytes stored at `at`. */
    method Recv(buf: array<byte>, at: nat, n: nat) returns (r: int)
      requires 0 < n && at + n <= buf.Length
      modifies this`incoming, this`failed, buf
      ensures -1 <= r <= n
      ensures failed ==> old(failed) || !reliable
      ensures r == -1 ==> failed && incoming == old(incoming) && buf[..] == old(buf[..])
      ensures r >= 0 ==> failed == old(failed) && r <= |old(incoming)|
      ensures r >= 0 ==> incoming == old(incoming)[r..]
      ensures r >= 0 ==> buf[..] == old(buf[..at]) + old(incoming)[..r] + old(buf[at + r..])
      ensures r == 0 ==> old(incoming) == []
    {
      var broken: bool := *;
      if broken && !reliable {
        failed := true;
        return -1;
      }
      if incoming == [] {
        return 0;
      }
      r :| 1 <= r <= n && r <= |incoming|;
      forall i | 0 <= i < r {
        buf[at + i] := incoming[i];
      }
      incoming := incoming[r..];
    }

    /** send: an error, 0, or between 1 and `n` of the bytes from `at` taken. */
    method Send(buf: array<byte>, at: nat, n: nat) returns (r: int)
      requires 0 < n && at + n <= buf.Length
      modifies this`outgoing, this`failed
      ensures -1 <= r <= n
      ensures failed ==> old(failed) || !reliable
      ensures r <= 0 ==> failed && outgoing == old(outgoing)
      ensures r > 0 ==> failed == old(failed) && outgoing == old(outgoing) + buf[at..at + r]
    {
      var broken: bool := *;
      if broken && !reliable {
        failed := true;
        r :| -1 <= r <= 0;
        return;
      }
      r :| 1 <= r <= n;
      outgoing := outgoing + buf[at..at + r];
    }

    /** zsock_send on a blocking socket: an error, or between 1 and `n` bytes taken. */
    method SendSome(buf: array<byte>, at: nat, n: nat) returns (r: int)
      requires 0 < n && at + n <= buf.Length
      modifies this`outgoing, this`failed
      ensures r == -1 || 1 <= r <= n
      ensures failed ==> old(failed) || !reliable
      ensures r == -1 ==> failed && outgoing == old(outgoing)
      ensures r > 0 ==> failed == old(failed) && outgoing == old(outgoing) + buf[at..at + r]
    {
      r := Send(buf, at, n);
      if r == 0 {
        r := -1;
      }
    }
  }
}
