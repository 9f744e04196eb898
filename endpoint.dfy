/**
  The four fixed endpoints of the Logentries API server: the port is chosen
  by the delivery mode (token stream or HTTP PUT) and by TLS.
 */
module Endpoint {

  const LeApi: string := "api.logentries.com"
  const TokenPort: int := 10000
  const TokenTlsPort: int := 20000
  const HttpPort: int := 80
  const HttpSslPort: int := 443

  /** The port used for a given mode and encryption choice; both choices can be read back from it. */
  function Port(httpPut: bool, ssl: bool): (p: int)
    ensures httpPut <==> p in {HttpPort, HttpSslPort}
    ensures ssl <==> p in {TokenTlsPort, HttpSslPort}
  {
    if !ssl then (if httpPut then HttpPort else TokenPort)
    else (if httpPut then HttpSslPort else TokenTlsPort)
  }

  /** Different choices never share a port. */
  lemma PortInjective(httpPut1: bool, ssl1: bool, httpPut2: bool, ssl2: bool)
    requires Port(httpPut1, ssl1) == Port(httpPut2, ssl2)
    ensures httpPut1 == httpPut2 && ssl1 == ssl2
  {
  }

  /** The port table. */
  lemma PortTable()
    ensures Port(false, false) == 10000 && Port(false, true) == 20000
    ensures Port(true, false) == 80 && Port(true, true) == 443
  {
  }
}
