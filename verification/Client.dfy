/** The end of request in src/net/client.rs: read until the server closes, then parse. */
module Client {
  import opened Wrappers
  import opened Http

  /** What a read returns: n octets (none at a clean end of the stream), or an error. */
  datatype ReadResult = Bytes(n: nat) | ConnectionClosed | OtherError

  /** A TLS connection: the octets that are still to come, and how it ends. */
  class TlsStream {
    var pending: string
    const ending: ReadResult

    ghost predicate Valid() {
      ending == Bytes(0) || ending == ConnectionClosed || ending == OtherError
    }

    constructor (octets: string, ending: ReadResult)
      requires ending == Bytes(0) || ending == ConnectionClosed || ending == OtherError
      ensures Valid() && pending == octets && this.ending == ending
    {
      this.pending := octets;
      this.ending := ending;
    }

    /** Any nonempty piece of what is pending that fits, of a size of the stream's own
        choosing; the ending when nothing is pending. */
    method Read(buf: array<char>, start: nat) returns (r: ReadResult)
      requires Valid() && start < buf.Length
      modifies this, buf
      ensures old(pending) == "" ==> r == ending && pending == "" && buf[..] == old(buf[..])
      ensures old(pending) != "" ==>
        && r.Bytes? && 1 <= r.n <= buf.Length - start && r.n <= |old(pending)|
        && pending == old(pending)[r.n..]
        && buf[..start] == old(buf[..start])
        && buf[start..start + r.n] == old(pending)[..r.n]
    {
      if pending == "" {
        return ending;
      }
      var n: nat :| 1 <= n <= |pending| && n <= buf.Length - start by {
        assert 1 <= 1 <= |pending| && 1 <= buf.Length - start;
      }
      var i := 0;
      while i < n
        invariant 0 <= i <= n
        invariant pending == old(pending)
        invariant buf[..start] == old(buf[..start])
        invariant buf[start..start + i] == pending[..i]
      {
        buf[start + i] := pending[i];
        i := i + 1;
      }
      pending := pending[n..];
      r := Bytes(n);
    }
  }

  /** Whatever the sizes of the reads, the result depends on the whole stream alone:
      too long for the buffer, broken off, or parsed. */
  method ReadResponse(stream: TlsStream, buf: array<char>) returns (r: Result<Response, ApiError>)
    requires stream.Valid()
    modifies stream, buf
    ensures var all := old(stream.pending);
            r == if |all| >= buf.Length then Err(Truncated(buf.Length))
                 else if stream.ending == OtherError then Err(Tls)
                 else ParseResponse(all)
  {
    ghost var all := stream.pending;
    var total := 0;
    while true
      invariant total <= buf.Length && total + |stream.pending| == |all|
      invariant buf[..total] == all[..total] && stream.pending == all[total..]
      decreases |stream.pending|
    {
      if total == buf.Length {
        return Err(Truncated(total));
      }
      var result := stream.Read(buf, total);
      match result {
        case Bytes(n) =>
          if n == 0 {
            break;
          }
          assert buf[..total + n] == buf[..total] + buf[total..total + n];
          total := total + n;
        case ConnectionClosed =>
          break;
        case OtherError =>
          return Err(Tls);
      }
    }
    assert all[..total] == all;
    r := ParseResponse(buf[..total]);
  }
}
