/** The Gateway API objects the controller reads, reduced to the fields it looks at. */
module GatewayApi {
  import opened Text

  const GATEWAY_GROUP := "gateway.networking.k8s.io"

  datatype ObjectRef = ObjectRef(group: Option<string>, kind: Option<string>, ns: Option<string>, name: string,
                                 port: Option<int>)

  datatype ParentRef = ParentRef(group: Option<string>, kind: Option<string>, ns: Option<string>, name: string,
                                 section: Option<string>, port: Option<int>)

  datatype MatchType = Exact | Prefix | RegularExpression | Unknown

  datatype PathMatch = PathMatch(kind: Option<MatchType>, value: Option<string>)

  /** A header or query parameter by name and value; the type is Exact or RegularExpression. */
  datatype FieldMatch = FieldMatch(kind: Option<MatchType>, name: string, value: string)

  /** What a match demands of a request besides host and path. */
  datatype Conditions = Conditions(verb: Option<string>, headers: seq<FieldMatch>, query: seq<FieldMatch>)

  const NO_CONDITIONS := Conditions(None, [], [])

  datatype HttpMatch = HttpMatch(path: Option<PathMatch>, also: Conditions)

  /** Type is Exact, RegularExpression or Unknown. */
  datatype GrpcMethod = GrpcMethod(kind: Option<MatchType>, service: Option<string>, methodName: Option<string>)

  datatype GrpcMatch = GrpcMatch(call: Option<GrpcMethod>, headers: seq<FieldMatch>)

  /** One rule; only HTTPRoutes have HTTP matches, host rewrites and timeouts, only GRPCRoutes gRPC matches. */
  datatype RouteRule = RouteRule(
    http: seq<HttpMatch>, grpc: seq<GrpcMatch>, refs: seq<ObjectRef>, rewrite: Option<string>, timeout: Option<int>)

  const HTTP_ROUTE := "HTTPRoute"
  const GRPC_ROUTE := "GRPCRoute"
  const TLS_ROUTE := "TLSRoute"
  const TCP_ROUTE := "TCPRoute"

  datatype Route = Route(
    kind: string, ns: string, name: string, created: int,
    parentRefs: seq<ParentRef>, hostnames: seq<string>, rules: seq<RouteRule>)

  /** The routes of each kind. */
  datatype Routes = Routes(http: seq<Route>, grpc: seq<Route>, tls: seq<Route>, tcp: seq<Route>) {
    function Every(): seq<Route> { http + grpc + tls + tcp }
  }

  function OrElse<T>(o: Option<T>, default: T): T {
    if o.Some? then o.value else default
  }
}

/** Per-rule origin settings and how layers of them combine. */
module OriginSettings {
  import opened Text

  datatype Access = Access(required: bool, teamName: string, audTag: seq<string>)

  /** None marks an unset field. */
  datatype Origin = Origin(
    connectTimeout: Option<int>, tlsTimeout: Option<int>, tcpKeepAlive: Option<int>,
    noHappyEyeballs: Option<bool>, keepAliveConnections: Option<int>, keepAliveTimeout: Option<int>,
    httpHostHeader: Option<string>, originServerName: Option<string>, noTlsVerify: Option<bool>,
    disableChunkedEncoding: Option<bool>, proxyType: Option<string>, http2Origin: Option<bool>,
    matchSniToHost: Option<bool>, access: Option<Access>)

  const UNSET := Origin(None, None, None, None, None, None, None, None, None, None, None, None, None, None)

  function First<T>(a: Option<T>, b: Option<T>): Option<T> {
    if a.Some? then a else b
  }

  /** Field by field, the first value set. */
  function Layer(a: Origin, b: Origin): Origin {
    Origin(
      First(a.connectTimeout, b.connectTimeout), First(a.tlsTimeout, b.tlsTimeout),
      First(a.tcpKeepAlive, b.tcpKeepAlive), First(a.noHappyEyeballs, b.noHappyEyeballs),
      First(a.keepAliveConnections, b.keepAliveConnections), First(a.keepAliveTimeout, b.keepAliveTimeout),
      First(a.httpHostHeader, b.httpHostHeader), First(a.originServerName, b.originServerName),
      First(a.noTlsVerify, b.noTlsVerify), First(a.disableChunkedEncoding, b.disableChunkedEncoding),
      First(a.proxyType, b.proxyType), First(a.http2Origin, b.http2Origin),
      First(a.matchSniToHost, b.matchSniToHost), First(a.access, b.access))
  }

  /** Layers stack in any grouping, and an unset layer adds nothing. */
  lemma LayerMonoid(a: Origin, b: Origin, c: Origin)
    ensures Layer(Layer(a, b), c) == Layer(a, Layer(b, c))
    ensures Layer(a, UNSET) == a && Layer(UNSET, a) == a
  {
  }
}
