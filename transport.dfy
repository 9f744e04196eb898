/**
  LogentriesTcpClient. The socket and TLS layers are not modelled: Connect
  and Write succeed or fail as their caller's outcome script says, and
  received records, in order, every write that went through.
 */
module Transport {
  import opened Endpoint

  class TcpClient {
    const sslChoice: bool
    /** The API server the socket is opened to. */
    const host: string
    const port: int
    var connected: bool
    var received: seq<string>

    /** Picks the port from the mode and the encryption choice; the host is always the API server. */
    constructor (httpPut: bool, ssl: bool)
      ensures sslChoice == ssl && host == LeApi && port == Port(httpPut, ssl)
      ensures !connected && received == []
    {
      sslChoice := ssl;
      host := LeApi;
      port := Port(httpPut, ssl);
      connected := false;
      received := [];
    }

    /** Opens the socket (and the TLS session); false stands for the exception Connect throws. */
    method Connect(succeeds: bool) returns (ok: bool)
      modifies this
      ensures ok == succeeds && connected == ok
      ensures received == old(received)
    {
      ok := succeeds;
      connected := ok;
    }

    /** Writes one piece of data; it goes through only on an open connection. */
    method Write(data: string, succeeds: bool) returns (ok: bool)
      modifies this
      ensures ok == (succeeds && old(connected)) && connected == old(connected)
      ensures received == if ok then old(received) + [data] else old(received)
    {
      ok := succeeds && connected;
      if ok {
        received := received + [data];
      }
    }

    /** Closes the socket; errors on close are swallowed. */
    method Close()
      modifies this
      ensures !connected && received == old(received)
    {
      connected := false;
    }
  }
}
