/** URLs as records of the parts the client compares. Parsing and joining belong to a library. */
module Urls {
  import opened Common

  datatype Url = Url(
    scheme: string,
    username: string,
    password: Option<string>,
    host: Option<string>,
    port: Option<nat>,
    path: string,
    query: seq<(string, string)>,
    fragment: Option<string>)

  datatype Origin = Tuple(scheme: string, host: string, port: nat) | Opaque

  function KnownPort(scheme: string): Option<nat> {
    if scheme == "https" || scheme == "wss" then Some(443)
    else if scheme == "http" || scheme == "ws" then Some(80)
    else if scheme == "ftp" then Some(21)
    else None
  }

  function PortOrDefault(url: Url): Option<nat> {
    if url.port.Some? then url.port else KnownPort(url.scheme)
  }

  /** The origin of a URL; only the network schemes have one that can be compared. */
  function OriginOf(url: Url): Origin {
    if KnownPort(url.scheme).Some? && url.host.Some? then
      Tuple(url.scheme, url.host.value, PortOrDefault(url).value)
    else Opaque
  }

  /** Origin equality: an opaque origin equals no other. */
  predicate SameOrigin(a: Url, b: Url) {
    OriginOf(a).Tuple? && OriginOf(a) == OriginOf(b)
  }

  /** Two URLs that differ at most in query, fragment and in writing out a default port. */
  predicate SameEndpoint(location: Url, expected: Url) {
    && location.scheme == expected.scheme
    && location.username == expected.username
    && location.password == expected.password
    && location.host == expected.host
    && PortOrDefault(location) == PortOrDefault(expected)
    && location.path == expected.path
  }

  /** The port a URL names, or that its scheme stands for when it names none. */
  predicate UsesPort(url: Url, port: nat) {
    if url.port.Some? then url.port.value == port
    else
      || ((url.scheme == "https" || url.scheme == "wss") && port == 443)
      || ((url.scheme == "http" || url.scheme == "ws") && port == 80)
      || (url.scheme == "ftp" && port == 21)
  }

  lemma PortsMean(url: Url)
    ensures forall port: nat :: PortOrDefault(url) == Some(port) <==> UsesPort(url, port)
  {
  }

  /** Two URLs have the same endpoint exactly when they differ in query and fragment only, except that
      one may write out the port its scheme stands for. */
  lemma SameEndpointMeans(a: Url, b: Url)
    ensures SameEndpoint(a, b) <==>
            && a.(port := None, query := [], fragment := None)
                 == b.(port := None, query := [], fragment := None)
            && forall port: nat :: UsesPort(a, port) <==> UsesPort(b, port)
  {
    hide UsesPort, PortOrDefault;
    PortsMean(a);
    PortsMean(b);
    if forall port: nat :: UsesPort(a, port) <==> UsesPort(b, port) {
      assert PortOrDefault(a).Some? ==> UsesPort(b, PortOrDefault(a).value);
      assert PortOrDefault(b).Some? ==> UsesPort(a, PortOrDefault(b).value);
    }
  }

  /** Two URLs have the same origin exactly when they agree on a network scheme, a host and a port. */
  lemma SameOriginMeans(a: Url, b: Url)
    ensures SameOrigin(a, b) <==>
            && a.scheme == b.scheme && a.host.Some? && a.host == b.host
            && a.scheme in {"https", "wss", "http", "ws", "ftp"}
            && exists port: nat :: UsesPort(a, port) && UsesPort(b, port)
  {
    hide UsesPort;
    PortsMean(a);
    PortsMean(b);
    if SameOrigin(a, b) {
      assert UsesPort(a, PortOrDefault(a).value) && UsesPort(b, PortOrDefault(b).value);
    }
  }
}
